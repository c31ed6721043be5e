/** Putting the messages of a device together from WebSocket frames. */
module FrameAssembly {
  import opened Common

  /** The operation of a frame; for a ping, also whether the pong can be sent. */
  datatype Op = Continuation | Text | Binary | Close | Ping(answered: bool) | Pong | Unknown

  /** What one read of the socket gives: a frame, nothing yet, or an exception. The flags of a frame are
      its operation, whether it is final, and the three reserved bits. */
  datatype Read = Nothing | Failed | Frame(op: Op, fin: bool, reserved: bool, payload: Octets)

  /** How a message is handled: the errors it counts for, and whether handling it throws or ends the
      connection. */
  datatype Outcome = Outcome(errors: nat, throws: bool, ends: bool)

  /** How the last of some messages is handled after the others. Whatever else handling looks at, each
      message of a run is told from any other by those before it. */
  type Handling = seq<Octets> -> Outcome

  datatype State = State(buffer: Octets, messages: seq<Octets>, pongs: nat, errors: nat, dead: bool)

  const OPEN: State := State([], [], 0, 0, false)

  const MAX_ERRORS: nat := 10

  /** A read of no octets with no flags at all means that the device has gone. */
  predicate Disconnect(r: Read) {
    r.Frame? && r.payload == [] && r.op == Continuation && !r.fin && !r.reserved
  }

  /** A final frame: the message so far is handled, unless it is empty. */
  function AfterFinal(s: State, process: Handling): State {
    if s.buffer == [] then s.(dead := s.errors >= MAX_ERRORS)
    else
      var o := process(s.messages + [s.buffer]);
      var handled := s.(messages := s.messages + [s.buffer], errors := s.errors + o.errors);
      if o.throws then handled.(dead := true)
      else handled.(buffer := [], dead := o.ends || handled.errors >= MAX_ERRORS)
  }

  function AfterRead(s: State, r: Read, process: Handling): State {
    if s.dead then s
    else if r == Failed || Disconnect(r) then s.(dead := true)
    else if r == Nothing then s.(dead := s.errors >= MAX_ERRORS)
    else
      var t := s.(buffer := s.buffer + r.payload);
      match r.op
      case Ping(answered) => if answered then t.(pongs := t.pongs + 1) else t.(dead := true)
      case Pong => t
      case Binary => t
      case Unknown => t.(errors := t.errors + 1)
      case Close => t.(dead := true)
      case Text => if r.fin then AfterFinal(t, process) else t.(dead := t.errors >= MAX_ERRORS)
      case Continuation => if r.fin then AfterFinal(t, process) else t.(dead := t.errors >= MAX_ERRORS)
  }

  function AfterReads(frames: seq<Read>, process: Handling): State {
    if frames == [] then OPEN else AfterRead(AfterReads(frames[..|frames| - 1], process), frames[|frames| - 1], process)
  }

  class Connection {
    var incomingFrame: Octets
    var messages: seq<Octets>
    var pongs: nat
    var errors: nat
    var dead: bool
    const process: Handling

    constructor (process: Handling)
      ensures View() == OPEN && this.process == process
    {
      incomingFrame, messages, pongs, errors, dead := [], [], 0, 0, false;
      this.process := process;
    }

    ghost function View(): State
      reads this
    {
      State(incomingFrame, messages, pongs, errors, dead)
    }

    method ProcessFinalPayload() returns (thrown: bool)
      modifies this
      ensures var was := old(View());
        if was.buffer == [] then !thrown && View() == was
        else
          var o := process(was.messages + [was.buffer]);
          && thrown == o.throws
          && View() == was.(messages := was.messages + [was.buffer], errors := was.errors + o.errors,
                            buffer := if o.throws then was.buffer else [], dead := was.dead || (o.ends && !o.throws))
    {
      if incomingFrame == [] {
        return false;
      }
      messages := messages + [incomingFrame];
      var o := process(messages);
      errors := errors + o.errors;
      if o.throws {
        return true;
      }
      if o.ends {
        dead := true;
      }
      incomingFrame := [];
      return false;
    }

    method ProcessIncomingFrame(r: Read)
      modifies this
      ensures View() == AfterRead(old(View()), r, process)
    {
      if dead {
        return;
      }
      if Disconnect(r) {
        dead := true;
        return;
      }
      var kill := r == Failed;
      if r.Frame? {
        assert r.payload == [] ==> incomingFrame + r.payload == incomingFrame;
        if r.payload != [] {
          incomingFrame := incomingFrame + r.payload;
        }
        match r.op {
          case Ping(answered) =>
            if answered {
              pongs := pongs + 1;
              return;
            }
            kill := true;
          case Pong =>
            return;
          case Binary =>
            kill := true;
            return;
          case Unknown =>
            errors := errors + 1;
            return;
          case Close =>
            kill := true;
          case Text =>
          case Continuation =>
        }
        if !kill && r.fin {
          kill := ProcessFinalPayload();
        }
      }
      if !kill && errors < MAX_ERRORS {
        return;
      }
      dead := true;
    }
  }

  /** A part of a message, and whether it is the last. */
  datatype Fragment = Fragment(payload: Octets, last: bool)

  function Joined(parts: seq<Fragment>): Octets {
    if parts == [] then [] else Joined(parts[..|parts| - 1]) + parts[|parts| - 1].payload
  }

  /** How many parts come before the first that is last. */
  function UntilLast(parts: seq<Fragment>): (n: nat)
    ensures n <= |parts|
    ensures forall i | 0 <= i < n :: !parts[i].last
    ensures n < |parts| ==> parts[n].last
  {
    if parts == [] || parts[0].last then 0 else 1 + UntilLast(parts[1..])
  }

  /** Section 5.4 of RFC 6455: a message is the parts up to and including one that is last, put
      together in order. */
  function Messages(parts: seq<Fragment>): seq<Octets>
    decreases |parts|
  {
    var n := UntilLast(parts);
    if n == |parts| then [] else [Joined(parts[..n + 1])] + Messages(parts[n + 1..])
  }

  /** What has come of a message that is not complete. */
  function Pending(parts: seq<Fragment>): Octets
    decreases |parts|
  {
    var n := UntilLast(parts);
    if n == |parts| then Joined(parts) else Pending(parts[n + 1..])
  }

  function NonEmpty(messages: seq<Octets>): seq<Octets> {
    if messages == [] then []
    else
      var last := messages[|messages| - 1];
      NonEmpty(messages[..|messages| - 1]) + if last == [] then [] else [last]
  }

  predicate IsData(r: Read) {
    r.Frame? && (r.op == Text || r.op == Continuation)
  }

  /** The parts that the data frames carry. */
  function DataParts(frames: seq<Read>): seq<Fragment> {
    if frames == [] then []
    else
      var r := frames[|frames| - 1];
      DataParts(frames[..|frames| - 1]) + if IsData(r) then [Fragment(r.payload, r.fin)] else []
  }

  /** The parts that the connection sees: it keeps the payload of any frame. */
  function SeenParts(frames: seq<Read>): seq<Fragment> {
    if frames == [] then []
    else
      var r := frames[|frames| - 1];
      SeenParts(frames[..|frames| - 1]) + if r.Frame? then [Fragment(r.payload, IsData(r) && r.fin)] else []
  }

  lemma {:induction false} LastOf(a: seq<Fragment>, x: Fragment)
    ensures UntilLast(a + [x]) == if UntilLast(a) < |a| then UntilLast(a) else if x.last then |a| else |a| + 1
  {
    if a != [] && !a[0].last {
      LastOf(a[1..], x);
      assert (a + [x])[1..] == a[1..] + [x];
    }
  }

  lemma JoinedNext(parts: seq<Fragment>, x: Fragment)
    ensures Joined(parts + [x]) == Joined(parts) + x.payload
  {
    assert (parts + [x])[..|parts|] == parts;
  }

  lemma HeadMessage(parts: seq<Fragment>, head: seq<Fragment>, rest: seq<Fragment>)
    requires parts == head + rest && head != [] && UntilLast(parts) == |head| - 1
    ensures Messages(parts) == [Joined(head)] + Messages(rest) && Pending(parts) == Pending(rest)
  {
    assert parts[..|head|] == head && parts[|head|..] == rest;
  }

  lemma NoMessage(parts: seq<Fragment>)
    requires UntilLast(parts) == |parts|
    ensures Messages(parts) == [] && Pending(parts) == Joined(parts)
  {
  }

  lemma NoParts()
    ensures Messages([]) == [] && Pending([]) == []
  {
  }

  /** One more part where no message is complete. */
  lemma FirstMessage(parts: seq<Fragment>, x: Fragment)
    requires UntilLast(parts) == |parts|
    ensures Messages(parts + [x]) == if x.last then [Joined(parts) + x.payload] else []
    ensures Pending(parts + [x]) == if x.last then [] else Joined(parts) + x.payload
  {
    hide Messages, Pending, Joined, UntilLast;
    var all := parts + [x];
    LastOf(parts, x);
    JoinedNext(parts, x);
    if x.last {
      assert all == all + [];
      HeadMessage(all, all, []);
      NoParts();
    } else {
      NoMessage(all);
    }
  }

  /** One more part goes to the message that is not complete, and completes it if it is last. */
  lemma {:induction false} OneMorePart(parts: seq<Fragment>, x: Fragment)
    ensures Messages(parts + [x]) == Messages(parts) + (if x.last then [Pending(parts) + x.payload] else [])
    ensures Pending(parts + [x]) == if x.last then [] else Pending(parts) + x.payload
    decreases |parts|
  {
    hide Messages, Pending, Joined, UntilLast;
    var n := UntilLast(parts);
    if n < |parts| {
      var head, rest := parts[..n + 1], parts[n + 1..];
      OneMorePart(rest, x);
      LastOf(parts, x);
      assert parts == head + rest && parts + [x] == head + (rest + [x]);
      HeadMessage(parts, head, rest);
      HeadMessage(parts + [x], head, rest + [x]);
    } else {
      FirstMessage(parts, x);
      NoMessage(parts);
    }
  }

  /** One more message, if it is not empty. */
  lemma OneMoreMessage(messages: seq<Octets>, m: Octets)
    ensures NonEmpty(messages + [m]) == NonEmpty(messages) + (if m == [] then [] else [m])
  {
    assert (messages + [m])[..|messages|] == messages;
  }

  /** The messages handled, and what is kept for the next, are those of the parts seen; a connection
      that is dead has handled the first of them. */
  ghost predicate Assembles(s: State, parts: seq<Fragment>) {
    && s.messages <= NonEmpty(Messages(parts))
    && (!s.dead ==> s.messages == NonEmpty(Messages(parts)) && s.buffer == Pending(parts))
  }

  lemma {:induction false} ReadsAssemble(frames: seq<Read>, process: Handling)
    ensures Assembles(AfterReads(frames, process), SeenParts(frames))
  {
    if frames != [] {
      var before := frames[..|frames| - 1];
      var r := frames[|frames| - 1];
      ReadsAssemble(before, process);
      ReadAssembles(AfterReads(before, process), r, SeenParts(before), process);
      hide Assembles, AfterRead;
      if !r.Frame? {
        assert SeenParts(before) + [] == SeenParts(before);
      }
    }
  }

  /** A final data frame hands over the message and starts afresh, unless that is the end. */
  lemma FinalAssembles(s: State, r: Read, messages: seq<Octets>, pending: Octets, process: Handling)
    requires r.Frame? && IsData(r) && r.fin
    requires s.messages <= messages && (!s.dead ==> s.messages == messages && s.buffer == pending)
    ensures var t := AfterRead(s, r, process);
      var all := messages + (if pending + r.payload == [] then [] else [pending + r.payload]);
      && t.messages <= all && (!t.dead ==> t.messages == all && t.buffer == [])
  {
  }

  /** Any other frame adds its payload to what is kept. */
  lemma PartAssembles(s: State, r: Read, process: Handling)
    requires r.Frame? && !(IsData(r) && r.fin)
    ensures var t := AfterRead(s, r, process);
      t.messages == s.messages && (!t.dead ==> !s.dead && t.buffer == s.buffer + r.payload)
  {
  }

  lemma ReadAssembles(s: State, r: Read, parts: seq<Fragment>, process: Handling)
    requires Assembles(s, parts)
    ensures Assembles(AfterRead(s, r, process),
                      parts + if r.Frame? then [Fragment(r.payload, IsData(r) && r.fin)] else [])
  {
    if r.Frame? {
      var x := Fragment(r.payload, IsData(r) && r.fin);
      OneMorePart(parts, x);
      OneMoreMessage(Messages(parts), Pending(parts) + x.payload);
      hide Messages, NonEmpty, Pending;
      if x.last {
        FinalAssembles(s, r, NonEmpty(Messages(parts)), Pending(parts), process);
      } else {
        assert Messages(parts) + [] == Messages(parts);
        PartAssembles(s, r, process);
      }
      hide AfterRead;
    } else {
      assert parts + [] == parts;
    }
  }

  /** A frame that is no data frame but has a payload. */
  predicate Intrudes(r: Read) {
    r.Frame? && !IsData(r) && r.payload != []
  }

  /** While no such frame comes, the parts seen make the same messages as the data frames. */
  lemma {:induction false} QuietControls(frames: seq<Read>)
    requires forall i | 0 <= i < |frames| :: !Intrudes(frames[i])
    ensures Messages(SeenParts(frames)) == Messages(DataParts(frames))
    ensures Pending(SeenParts(frames)) == Pending(DataParts(frames))
  {
    if frames != [] {
      var before := frames[..|frames| - 1];
      var r := frames[|frames| - 1];
      QuietControls(before);
      hide Messages, Pending;
      var x := if r.Frame? then Fragment(r.payload, IsData(r) && r.fin) else Fragment([], false);
      OneMorePart(SeenParts(before), x);
      OneMorePart(DataParts(before), x);
      assert !Intrudes(r);
      assert SeenParts(before) + [] == SeenParts(before);
      assert DataParts(before) + [] == DataParts(before);
      assert Messages(SeenParts(before)) + [] == Messages(SeenParts(before));
      assert Pending(SeenParts(before)) + [] == Pending(SeenParts(before));
    }
  }

  ghost predicate FollowsNow(frames: seq<Read>, process: Handling) {
    var s := AfterReads(frames, process);
    s.messages == NonEmpty(Messages(DataParts(frames))) && s.buffer == Pending(DataParts(frames))
  }

  /** After every frame, the messages are those of section 5.4 of RFC 6455, the empty ones left out. */
  ghost predicate Follows(frames: seq<Read>, process: Handling) {
    forall k | 0 <= k <= |frames| :: FollowsNow(frames[..k], process)
  }

  lemma {:induction false} AliveBefore(frames: seq<Read>, k: nat, process: Handling)
    requires k <= |frames| && !AfterReads(frames, process).dead
    ensures !AfterReads(frames[..k], process).dead
    decreases |frames|
  {
    if k == |frames| {
      assert frames[..k] == frames;
    } else {
      AliveBefore(frames[..|frames| - 1], k, process);
      assert frames[..|frames| - 1][..k] == frames[..k];
    }
  }

  lemma QuietFollows(frames: seq<Read>, process: Handling)
    requires !AfterReads(frames, process).dead && forall i | 0 <= i < |frames| :: !Intrudes(frames[i])
    ensures FollowsNow(frames, process)
  {
    ReadsAssemble(frames, process);
    QuietControls(frames);
  }

  lemma FollowingHasNoIntruder(before: seq<Read>, r: Read, process: Handling)
    requires FollowsNow(before, process) && FollowsNow(before + [r], process) && !AfterReads(before + [r], process).dead
    ensures !Intrudes(r)
  {
    assert (before + [r])[..|before|] == before;
    var s := AfterReads(before, process);
    var t := AfterReads(before + [r], process);
    assert t == AfterRead(s, r, process);
    if r.Frame? && !IsData(r) {
      assert DataParts(before + [r]) == DataParts(before);
      PartAssembles(s, r, process);
      hide Pending, Messages, DataParts, AfterReads, AfterRead;
      assert s.buffer == t.buffer == s.buffer + r.payload;
    }
  }

  /** A connection that is alive puts messages together as the standard says, frame after frame, if
      and only if no ping, pong, binary or unknown frame came with a payload. */
  lemma AliveFollows(frames: seq<Read>, process: Handling)
    requires !AfterReads(frames, process).dead
    ensures Follows(frames, process) <==> forall i | 0 <= i < |frames| :: !Intrudes(frames[i])
  {
    hide FollowsNow, AfterReads, Intrudes;
    if forall i | 0 <= i < |frames| :: !Intrudes(frames[i]) {
      forall k | 0 <= k <= |frames|
        ensures FollowsNow(frames[..k], process)
      {
        AliveBefore(frames, k, process);
        QuietFollows(frames[..k], process);
      }
    }
    if Follows(frames, process) {
      forall i | 0 <= i < |frames|
        ensures !Intrudes(frames[i])
      {
        AliveBefore(frames, i + 1, process);
        assert frames[..i + 1] == frames[..i] + [frames[i]];
        FollowingHasNoIntruder(frames[..i], frames[i], process);
      }
    }
  }

  /* ---------- what ends a connection ---------- */

  /** The messages so far, as the connection sees them. */
  function Handled(frames: seq<Read>): seq<Octets> {
    NonEmpty(Messages(SeenParts(frames)))
  }

  function ErrorsOf(messages: seq<Octets>, process: Handling): nat {
    if messages == [] then 0
    else ErrorsOf(messages[..|messages| - 1], process) + process(messages).errors
  }

  function Unknowns(frames: seq<Read>): nat {
    if frames == [] then 0
    else
      var r := frames[|frames| - 1];
      Unknowns(frames[..|frames| - 1]) + if r.Frame? && r.op == Unknown then 1 else 0
  }

  /** The errors counted: one for each unknown frame, and those of handling the messages. */
  function Errors(frames: seq<Read>, process: Handling): nat {
    Unknowns(frames) + ErrorsOf(Handled(frames), process)
  }

  predicate Fatal(r: Read) {
    r == Failed || Disconnect(r) || (r.Frame? && (r.op == Close || r.op == Ping(false)))
  }

  /** The connection outlives its last read: that is no failure, disconnection, close or ping that cannot
      be answered; where errors are looked at, there are fewer than ten; and no message so far is one
      whose handling throws or ends the connection. */
  ghost predicate Survives(frames: seq<Read>, process: Handling)
    requires frames != []
  {
    var r := frames[|frames| - 1];
    && !Fatal(r)
    && (r == Nothing || IsData(r) ==> Errors(frames, process) < MAX_ERRORS)
    && Harmless(Handled(frames), process)
  }

  /** Handling none of some messages throws or ends the connection. */
  ghost predicate Harmless(messages: seq<Octets>, process: Handling) {
    forall k | 0 < k <= |messages| :: !process(messages[..k]).throws && !process(messages[..k]).ends
  }

  lemma OneMoreHarmless(messages: seq<Octets>, m: Octets, process: Handling)
    ensures var all := messages + [m];
      Harmless(all, process) <==> Harmless(messages, process) && !process(all).throws && !process(all).ends
  {
    var all := messages + [m];
    assert all[..|all|] == all;
    assert forall k | 0 < k <= |messages| :: all[..k] == messages[..k];
  }

  /** What a living connection knows, in terms of the reads alone. */
  ghost predicate Knows(s: State, frames: seq<Read>, process: Handling) {
    && !s.dead && s.messages == Handled(frames) && s.buffer == Pending(SeenParts(frames))
    && s.errors == Errors(frames, process)
    && Harmless(Handled(frames), process)
  }

  /** How the messages, what is pending and the errors grow with a read. */
  lemma OneMoreRead(frames: seq<Read>, r: Read, process: Handling)
    ensures var last := r.Frame? && IsData(r) && r.fin;
      var m := Pending(SeenParts(frames)) + if r.Frame? then r.payload else [];
      && Handled(frames + [r]) == Handled(frames) + (if last && m != [] then [m] else [])
      && Pending(SeenParts(frames + [r])) == (if last then [] else m)
      && Errors(frames + [r], process) == Errors(frames, process) + (if r.Frame? && r.op == Unknown then 1 else 0)
                                          + (if last && m != [] then process(Handled(frames) + [m]).errors else 0)
  {
    assert (frames + [r])[..|frames|] == frames;
    var parts := SeenParts(frames);
    if r.Frame? {
      var x := Fragment(r.payload, IsData(r) && r.fin);
      OneMorePart(parts, x);
      OneMoreMessage(Messages(parts), Pending(parts) + x.payload);
      hide Messages, NonEmpty, Pending;
      assert Messages(parts) + [] == Messages(parts);
      assert NonEmpty(Messages(parts)) + [] == NonEmpty(Messages(parts));
      var all := NonEmpty(Messages(parts));
      assert (all + [Pending(parts) + x.payload])[..|all|] == all;
    } else {
      hide Messages, NonEmpty, Pending;
      assert parts + [] == parts;
      assert Pending(parts) + [] == Pending(parts);
      assert NonEmpty(Messages(parts)) + [] == NonEmpty(Messages(parts));
    }
  }

  /** A final data frame: a message more, if there is something, and one whose handling decides. */
  lemma FinalSurvives(s: State, frames: seq<Read>, r: Read, process: Handling)
    requires Knows(s, frames, process) && r.Frame? && IsData(r) && r.fin
    ensures var t := AfterRead(s, r, process);
      (!t.dead <==> Survives(frames + [r], process)) && (!t.dead ==> Knows(t, frames + [r], process))
  {
    OneMoreRead(frames, r, process);
    hide Handled, Pending, Errors;
    assert (frames + [r])[|frames|] == r;
    var m := s.buffer + r.payload;
    OneMoreHarmless(Handled(frames), m, process);
    hide Harmless;
    if m == [] {
      assert Handled(frames + [r]) == Handled(frames);
    }
  }

  lemma OtherSurvives(s: State, frames: seq<Read>, r: Read, process: Handling)
    requires Knows(s, frames, process) && !(r.Frame? && IsData(r) && r.fin)
    ensures var t := AfterRead(s, r, process);
      (!t.dead <==> Survives(frames + [r], process)) && (!t.dead ==> Knows(t, frames + [r], process))
  {
    OneMoreRead(frames, r, process);
    hide Handled, Pending, Errors, AfterFinal;
    assert (frames + [r])[|frames|] == r;
    assert s.buffer + [] == s.buffer && Handled(frames) + [] == Handled(frames);
  }

  lemma ReadSurvives(s: State, frames: seq<Read>, r: Read, process: Handling)
    requires Knows(s, frames, process)
    ensures var t := AfterRead(s, r, process);
      (!t.dead <==> Survives(frames + [r], process)) && (!t.dead ==> Knows(t, frames + [r], process))
  {
    hide AfterRead, Survives, Knows;
    if r.Frame? && IsData(r) && r.fin {
      FinalSurvives(s, frames, r, process);
    } else {
      OtherSurvives(s, frames, r, process);
    }
  }

  /** To outlive one more read is to outlive those before and this one. */
  lemma OutlivesOneMore(frames: seq<Read>, process: Handling)
    requires frames != []
    ensures Outlives(frames, process) <==> Outlives(frames[..|frames| - 1], process) && Survives(frames, process)
  {
    hide Survives;
    var before := frames[..|frames| - 1];
    assert frames[..|frames|] == frames;
    assert forall k | 0 < k <= |before| :: before[..k] == frames[..k];
  }

  ghost predicate Outlives(frames: seq<Read>, process: Handling) {
    forall k | 0 < k <= |frames| :: Survives(frames[..k], process)
  }

  lemma {:induction false} AliveKnows(frames: seq<Read>, process: Handling)
    ensures !AfterReads(frames, process).dead <==> Outlives(frames, process)
    ensures !AfterReads(frames, process).dead ==> Knows(AfterReads(frames, process), frames, process)
  {
    if frames == [] {
      NoParts();
    } else {
      var n := |frames| - 1;
      AliveKnows(frames[..n], process);
      OutlivesOneMore(frames, process);
      var s := AfterReads(frames[..n], process);
      hide Survives, Knows, AfterRead, Outlives;
      assert frames == frames[..n] + [frames[n]];
      if s.dead {
        StaysDead(s, frames[n], process);
      } else {
        ReadSurvives(s, frames[..n], frames[n], process);
      }
    }
  }

  lemma StaysDead(s: State, r: Read, process: Handling)
    requires s.dead
    ensures AfterRead(s, r, process).dead
  {
  }

  /** For any reads and any handling: the connection is alive if and only if it outlived every one of
      its reads, said in terms of the reads alone. */
  lemma AliveIfSurviving(frames: seq<Read>, process: Handling)
    ensures !AfterReads(frames, process).dead <==> Outlives(frames, process)
  {
    AliveKnows(frames, process);
  }

  /** For any reads and any handling: the connection is alive and follows section 5.4 of RFC 6455 frame
      after frame, if and only if it outlives each read and no ping, pong, binary or unknown frame comes
      with a payload. */
  lemma FollowsTheStandard(frames: seq<Read>, process: Handling)
    ensures !AfterReads(frames, process).dead && Follows(frames, process)
       <==> Outlives(frames, process) && forall i | 0 <= i < |frames| :: !Intrudes(frames[i])
  {
    AliveIfSurviving(frames, process);
    hide Outlives, Follows, Intrudes, AfterReads;
    if !AfterReads(frames, process).dead {
      AliveFollows(frames, process);
    }
  }

  /** Nothing but data frames, answered pings and pongs, and waits, with or without disconnections. */
  predicate Ordinary(r: Read) {
    r == Nothing || (r.Frame? && r.op in {Text, Continuation, Binary, Ping(true), Pong})
  }

  lemma {:induction false} OrdinaryErrors(frames: seq<Read>, process: Handling)
    requires forall i | 0 <= i < |frames| :: Ordinary(frames[i])
    ensures Unknowns(frames) == 0
  {
    if frames != [] {
      OrdinaryErrors(frames[..|frames| - 1], process);
    }
  }

  lemma {:induction false} NoErrors(messages: seq<Octets>, process: Handling)
    requires forall all: seq<Octets> :: process(all).errors == 0
    ensures ErrorsOf(messages, process) == 0
  {
    if messages != [] {
      NoErrors(messages[..|messages| - 1], process);
    }
  }

  /** Among ordinary reads, where every message is handled without a fault, the connection dies exactly
      of an empty continuation that is not final: section 5.4 of RFC 6455 allows that frame, but it has
      no flags and no payload, as a device that has gone. */
  lemma DiesOfDisconnects(frames: seq<Read>, process: Handling)
    requires forall i | 0 <= i < |frames| :: Ordinary(frames[i])
    requires forall all: seq<Octets> :: process(all) == Outcome(0, false, false)
    ensures AfterReads(frames, process).dead <==> exists i | 0 <= i < |frames| :: Disconnect(frames[i])
  {
    hide AfterReads, Survives, Disconnect;
    AliveIfSurviving(frames, process);
    forall k | 0 < k <= |frames|
      ensures Survives(frames[..k], process) <==> !Disconnect(frames[k - 1])
    {
      SurvivesUnlessDisconnected(frames[..k], process);
    }
    if i :| 0 <= i < |frames| && Disconnect(frames[i]) {
      assert !Survives(frames[..i + 1], process);
    }
  }

  lemma SurvivesUnlessDisconnected(frames: seq<Read>, process: Handling)
    requires frames != [] && forall i | 0 <= i < |frames| :: Ordinary(frames[i])
    requires forall all: seq<Octets> :: process(all) == Outcome(0, false, false)
    ensures Survives(frames, process) <==> !Disconnect(frames[|frames| - 1])
  {
    OrdinaryErrors(frames, process);
    NoErrors(Handled(frames), process);
    hide Handled, ErrorsOf, Unknowns;
    assert Ordinary(frames[|frames| - 1]);
  }

  lemma ThreeReads(a: Read, b: Read, c: Read, process: Handling)
    ensures AfterReads([a, b, c], process) == AfterRead(AfterRead(AfterRead(OPEN, a, process), b, process), c, process)
    ensures DataParts([a, b, c]) == PartOf(a) + PartOf(b) + PartOf(c)
  {
    hide AfterRead;
    assert [a, b, c][..2] == [a, b] && [a, b][..1] == [a] && [a][..0] == [];
    assert AfterReads([a], process) == AfterRead(OPEN, a, process);
    assert AfterReads([a, b], process) == AfterRead(AfterReads([a], process), b, process);
    assert DataParts([a]) == [] + PartOf(a) == PartOf(a);
    assert DataParts([a, b]) == PartOf(a) + PartOf(b);
  }

  /** What a read has of the standard's parts. */
  function PartOf(r: Read): seq<Fragment> {
    if IsData(r) then [Fragment(r.payload, r.fin)] else []
  }

  lemma TwoParts(x: Fragment, y: Fragment)
    requires !x.last && y.last
    ensures Messages([x, y]) == [x.payload + y.payload]
  {
    FirstMessage([x], y);
    JoinedNext([], x);
    assert [x] + [y] == [x, y] && [] + [x] == [x] && [] + x.payload == x.payload;
  }

  lemma ThreeParts(x: Fragment, y: Fragment, z: Fragment)
    requires !x.last && !y.last && z.last
    ensures Messages([x, y, z]) == [x.payload + y.payload + z.payload]
  {
    FirstMessage([x, y], z);
    JoinedNext([x], y);
    JoinedNext([], x);
    assert [x, y] + [z] == [x, y, z] && [x] + [y] == [x, y] && [] + [x] == [x] && [] + x.payload == x.payload;
  }

  /** A text in three parts, the second empty: the connection is dead before the third, however messages
      are handled, and the message of the standard is never put together. */
  lemma EmptyPartIsTakenForADisconnect(process: Handling)
    ensures var frames := [Frame(Text, false, false, [1]), Frame(Continuation, false, false, []),
                           Frame(Continuation, true, false, [2])];
      && AfterReads(frames, process).dead && AfterReads(frames, process).messages == []
      && Messages(DataParts(frames)) == [[1, 2]]
  {
    var a, b, c := Frame(Text, false, false, [1]), Frame(Continuation, false, false, []),
                   Frame(Continuation, true, false, [2]);
    hide AfterReads, DataParts, Messages;
    ThreeReads(a, b, c, process);
    assert AfterRead(AfterRead(OPEN, a, process), b, process).dead;
    var x, y, z := Fragment([1], false), Fragment([], false), Fragment([2], true);
    assert PartOf(a) + PartOf(b) + PartOf(c) == [x, y, z];
    ThreeParts(x, y, z);
    assert x.payload + y.payload + z.payload == [1, 2];
  }

  /** A ping with a payload between the two parts of a text: its payload becomes part of the message. */
  lemma PingPayloadIsKept(process: Handling)
    requires process([[1, 9, 2]]) == Outcome(0, false, false)
    ensures var frames := [Frame(Text, false, false, [1]), Frame(Ping(true), true, false, [9]),
                           Frame(Continuation, true, false, [2])];
      && AfterReads(frames, process).messages == [[1, 9, 2]] && !AfterReads(frames, process).dead
      && Messages(DataParts(frames)) == [[1, 2]]
  {
    var a, b, c := Frame(Text, false, false, [1]), Frame(Ping(true), true, false, [9]),
                   Frame(Continuation, true, false, [2]);
    ThreeReads(a, b, c, process);
    PingIsKept(a, b, c, process);
    hide AfterReads, AfterRead, DataParts, Messages;
    var x, y := Fragment([1], false), Fragment([2], true);
    assert PartOf(a) + PartOf(b) + PartOf(c) == [x, y];
    TwoParts(x, y);
    assert x.payload + y.payload == [1, 2];
  }

  lemma PingIsKept(a: Read, b: Read, c: Read, process: Handling)
    requires a == Frame(Text, false, false, [1]) && b == Frame(Ping(true), true, false, [9])
    requires c == Frame(Continuation, true, false, [2]) && process([[1, 9, 2]]) == Outcome(0, false, false)
    ensures var s := AfterRead(AfterRead(AfterRead(OPEN, a, process), b, process), c, process);
      s.messages == [[1, 9, 2]] && !s.dead
  {
    hide Messages, DataParts;
    var t := AfterRead(AfterRead(OPEN, a, process), b, process);
    assert [] + [1] == [1] && [1] + [9] == [1, 9] && [1, 9] + [2] == [1, 9, 2];
    assert t == State([1, 9], [], 1, 0, false);
  }

  /** Whatever the frames are and however messages are handled, those handled are the first of the
      messages that the parts make, none skipped, and all of them while the connection is alive. */
  lemma MessagesAreInOrder(frames: seq<Read>, process: Handling)
    ensures var s := AfterReads(frames, process);
      && s.messages <= NonEmpty(Messages(SeenParts(frames)))
      && (!s.dead ==> s.messages == NonEmpty(Messages(SeenParts(frames))))
  {
    ReadsAssemble(frames, process);
  }

  /** The pings that can be answered. */
  function Pings(frames: seq<Read>): nat {
    if frames == [] then 0
    else
      var r := frames[|frames| - 1];
      Pings(frames[..|frames| - 1]) + if r.Frame? && r.op == Ping(true) then 1 else 0
  }

  /** One pong for each ping: exactly, while the connection is alive, and never more. */
  lemma {:induction false} PongsAnswerPings(frames: seq<Read>, process: Handling)
    ensures AfterReads(frames, process).pongs <= Pings(frames)
    ensures !AfterReads(frames, process).dead ==> AfterReads(frames, process).pongs == Pings(frames)
  {
    if frames != [] {
      PongsAnswerPings(frames[..|frames| - 1], process);
    }
  }

  /** A binary frame is not a reason to end the connection: the mark is set, and left behind. */
  lemma BinaryIsKept(s: State, fin: bool, reserved: bool, payload: Octets, process: Handling)
    requires !s.dead
    ensures AfterRead(s, Frame(Binary, fin, reserved, payload), process) == s.(buffer := s.buffer + payload)
  {
  }
}
