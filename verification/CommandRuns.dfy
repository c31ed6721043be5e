/** Every interleaving of requests posted, sent, answered, timed out, cleared and removed. Posting
    is two steps, as the answer may come in before the sender learns that the frame went out. */
module CommandRuns {
  import opened Common
  import opened CommandTable

  /** Why a request is no longer outstanding. */
  datatype Reason = Completed | NotSent | Expired | Reconnected | Withdrawn

  /** The table and its counters, and what has happened so far. */
  datatype World = World(
    t: Table,
    counter: nat,               // the last identifier given out
    promises: nat,              // how many promises were made
    taken: set<nat>,            // identifiers given out and not posted yet
    sending: set<nat>,          // posted, and the sender does not know yet if the frame went out
    posted: map<nat, Request>,  // every request as it was posted
    left: map<nat, Reason>,     // the requests that are no longer outstanding
    answered: set<nat>,         // requests with an answer from their device
    heard: set<nat>,            // those of them with an answer that could be read
    undecided: set<nat>,        // scripts answered, before any status, by a result without one
    again: set<nat>             // those of them with a promise that were answered once more
  )

  datatype Step =
    | Take
    | Insert(id: nat, serial: u64, kind: Kind, uuid: string, rpc: bool, deferred: bool, now: nat)
    | SendResult(id: nat, delivered: bool)
    | Reply(serial: u64, id: nat, answer: Answer)
    | Janitor(now: nat)
    | Clear(serial: u64)
    | RemovePending(id: nat)
    | Remove(uuid: string, id: nat)

  function Posting(step: Step, promises: nat): Request
    requires step.Insert?
  {
    Request(step.id, step.serial, step.kind, step.uuid, InitialState(step.kind, step.deferred), step.now,
            if step.rpc then Some(promises) else None, step.deferred)
  }

  /** What a step does to the table. A step that is not possible changes nothing: an identifier is
      posted once, and a removal by UUID takes the first request that has it. */
  function TableAfter(w: World, step: Step): Table {
    match step
    case Take => w.t
    case Insert(id, _, _, _, _, _, _) =>
      if id in w.taken then w.t.(outstanding := w.t.outstanding[id := Posting(step, w.promises)]) else w.t
    case SendResult(id, delivered) =>
      if id in w.sending && !delivered then Without(w.t, id) else w.t
    case Reply(serial, id, answer) => AfterReply(w.t, serial, id, answer)
    case Janitor(now) => AfterJanitor(w.t, now)
    case Clear(serial) => AfterClear(w.t, serial)
    case RemovePending(id) => Without(w.t, id)
    case Remove(uuid, id) => if FirstWith(w.t, uuid, id) then Without(w.t, id) else w.t
  }

  function ReasonOf(step: Step): Reason {
    match step
    case Reply(_, _, _) => Completed
    case SendResult(_, _) => NotSent
    case Janitor(_) => Expired
    case Clear(_) => Reconnected
    case _ => Withdrawn
  }

  /** Reading the answer raises an error, and nothing comes of it. */
  predicate Throws(r: Request, a: Answer) {
    match r.kind
    case Script => r.state == 2 && Baffling(a)
    case Configure => r.promise == None && ConfigureThrows(a)
    case _ => false
  }

  /** An answer that cannot be read while a script waits for its first status: the result is no object,
      or has a status that is none, that has no number as its error, or that is bad and has no text. */
  predicate Baffling(a: Answer) {
    a.BadResult? || (a.Result? && a.status.Some? && (a.status.value.Illegible? || BadWithoutText(a.status.value)))
  }

  predicate BadWithoutText(status: Status) {
    status.Legible? && status.error != 0 && !status.text
  }

  /** A deferred script that has not had a status gets a result without one. */
  predicate Undecided(r: Request, a: Answer) {
    r.kind == Script && r.state == 2 && a.Result? && a.status == None
  }

  /** A promise is given another value. */
  predicate MakesAgain(w: World, r: Request, a: Answer) {
    r.id in w.undecided && r.state == 2 && r.promise.Some? && !Throws(r, a)
  }

  /** The ledger of a step. Only here does `left` change: whatever was outstanding and is not. */
  function Next(w: World, step: Step): World {
    var t := TableAfter(w, step);
    var left := w.left + map id | id in w.t.outstanding && id !in t.outstanding :: ReasonOf(step);
    match step
    case Take => w.(counter := w.counter + 1, taken := w.taken + {w.counter + 1})
    case Insert(id, _, _, _, rpc, _, _) =>
      if id !in w.taken then w
      else w.(t := t, taken := w.taken - {id}, sending := w.sending + {id},
              posted := w.posted[id := Posting(step, w.promises)],
              promises := if rpc then w.promises + 1 else w.promises)
    case SendResult(id, _) => w.(t := t, left := left, sending := w.sending - {id})
    case Reply(serial, id, answer) =>
      if !Handled(w.t, serial, id) then w
      else
        var r := w.t.outstanding[id];
        w.(t := t, left := left, answered := w.answered + {id},
           heard := if Throws(r, answer) then w.heard else w.heard + {id},
           undecided := if Undecided(r, answer) then w.undecided + {id} else w.undecided,
           again := if MakesAgain(w, r, answer) then w.again + {id} else w.again)
    case _ => w.(t := t, left := left)
  }

  const START: World := World(Table(map[], []), 3, 0, {}, {}, map[], map[], {}, {}, {}, {})

  function Run(steps: seq<Step>): World {
    if steps == [] then START else Next(Run(steps[..|steps| - 1]), steps[|steps| - 1])
  }

  /** Identifiers: given out once, in order, above the two that answers ignore; posted once. */
  ghost predicate Identified(w: World) {
    && (forall id | id in w.taken :: 3 < id <= w.counter && id !in w.posted)
    && (forall id | id in w.posted :: 3 < id <= w.counter && w.posted[id].id == id)
    && w.sending <= w.posted.Keys && w.heard <= w.answered <= w.posted.Keys && 3 <= w.counter
  }

  /** The ledger: what was posted is outstanding or has left, never both, and while it is
      outstanding nothing of it changes but the state of a script. */
  ghost predicate Balanced(w: World) {
    && w.posted.Keys == w.t.outstanding.Keys + w.left.Keys
    && w.t.outstanding.Keys !! w.left.Keys
    && forall id | id in w.t.outstanding :: w.t.outstanding[id] == w.posted[id].(state := w.t.outstanding[id].state)
  }

  /** A completed request had an answer that could be read. */
  ghost predicate CompletedWereHeard(w: World) {
    forall id | id in w.left && w.left[id] == Completed :: id in w.heard
  }

  /** The state of an outstanding request tells whether an answer to it could be read. */
  predicate StateTells(r: Request, heard: bool, undecided: bool) {
    && (r.state == 1 || (r.state == 2 && r.kind == Script && r.deferred))
    && (heard <==> if r.state == 2 then undecided else r.kind == Script && r.deferred)
  }

  ghost predicate StatesTell(w: World) {
    && (forall id | id in w.t.outstanding :: StateTells(w.t.outstanding[id], id in w.heard, id in w.undecided))
    && w.undecided <= w.heard
  }

  ghost predicate NoDuplicates(s: seq<nat>) {
    forall i, j | 0 <= i < j < |s| :: s[i] != s[j]
  }

  /** Every request with a promise has its own. */
  ghost predicate OwnPromises(w: World) {
    && (forall id | id in w.posted && w.posted[id].promise.Some? :: w.posted[id].promise.value < w.promises)
    && (forall a, b | a in w.posted && b in w.posted && a != b && w.posted[a].promise.Some? ::
        w.posted[a].promise != w.posted[b].promise)
    && (forall p | p in w.t.settled :: p < w.promises)
  }

  /** A promise has a value if and only if an answer to its request could be read, and it was given
      more than one if and only if a script was answered so again after a result without a status. */
  ghost predicate Settling(w: World) {
    && (forall id | id in w.posted && w.posted[id].promise.Some? ::
          w.posted[id].promise.value in w.t.settled <==> id in w.heard)
    && (NoDuplicates(w.t.settled) <==> w.again == {})
  }

  ghost predicate Invariant(w: World) {
    && Identified(w) && Balanced(w) && CompletedWereHeard(w) && StatesTell(w) && OwnPromises(w) && Settling(w)
  }

  lemma StepKeepsIdentified(w: World, step: Step)
    requires Identified(w) && Balanced(w)
    ensures Identified(Next(w, step))
  {
  }

  /** Only an answer moves a state or gives a promise a value. */
  lemma OnlyAnswersSettle(w: World, step: Step)
    requires !step.Insert? && !step.Reply?
    ensures TableAfter(w, step).settled == w.t.settled
    ensures forall id | id in TableAfter(w, step).outstanding ::
      id in w.t.outstanding && TableAfter(w, step).outstanding[id] == w.t.outstanding[id]
  {
  }

  /** An answer that is handled deals with one request: a script that stays has its state moved, and
      anything else leaves. */
  lemma AnswerDealsWithOne(w: World, step: Step)
    requires step.Reply? && Handled(w.t, step.serial, step.id) && Identified(w) && Balanced(w)
    ensures var r := w.t.outstanding[step.id];
      var (state, passOn) := Dealt(r, step.answer);
      && TableAfter(w, step).settled
         == (if passOn && r.promise.Some? then w.t.settled + [r.promise.value] else w.t.settled)
      && TableAfter(w, step).outstanding ==
         if state == 0 then w.t.outstanding - {step.id} else w.t.outstanding[step.id := r.(state := state)]
  {
  }

  /** A step that is no posting only takes requests out, or moves the state of one script. */
  lemma TableShrinks(w: World, step: Step)
    requires !step.Insert? && Balanced(w) && Identified(w)
    ensures TableAfter(w, step).outstanding.Keys <= w.t.outstanding.Keys
    ensures forall id | id in TableAfter(w, step).outstanding ::
      var r := TableAfter(w, step).outstanding[id];
      r == w.t.outstanding[id].(state := r.state)
  {
    if step.Reply? {
      if Handled(w.t, step.serial, step.id) {
        AnswerDealsWithOne(w, step);
      }
      hide TableAfter, Identified;
    } else {
      OnlyAnswersSettle(w, step);
      hide TableAfter;
    }
  }

  lemma PostingKeepsBalanced(w: World, step: Step)
    requires step.Insert? && Identified(w) && Balanced(w)
    ensures Balanced(Next(w, step))
  {
  }

  /** Whatever is no longer outstanding is written down. */
  lemma ShrinkingBalances(w: World, v: World, reason: Reason)
    requires Balanced(w) && v.posted == w.posted && v.t.outstanding.Keys <= w.t.outstanding.Keys
    requires forall id | id in v.t.outstanding ::
      v.t.outstanding[id] == w.t.outstanding[id].(state := v.t.outstanding[id].state)
    requires v.left == w.left + map id | id in w.t.outstanding && id !in v.t.outstanding :: reason
    ensures Balanced(v)
  {
  }

  lemma StepKeepsBalanced(w: World, step: Step)
    requires Identified(w) && Balanced(w)
    ensures Balanced(Next(w, step))
  {
    if step.Insert? {
      PostingKeepsBalanced(w, step);
    } else if step.Take? || (step.Reply? && !Handled(w.t, step.serial, step.id)) {
      hide Identified, Handled;
    } else {
      TableShrinks(w, step);
      hide TableAfter, Handled, Undecided, Identified, Throws, MakesAgain, Balanced;
      ShrinkingBalances(w, Next(w, step), ReasonOf(step));
    }
  }

  /** What an answer does to a request, seen from the outside. */
  lemma DealtTells(r: Request, a: Answer, heard: bool, undecided: bool)
    requires StateTells(r, heard, undecided)
    ensures var (state, passOn) := Dealt(r, a);
      && (state != 0 ==> StateTells(r.(state := state), heard || !Throws(r, a), undecided || Undecided(r, a)))
      && (Throws(r, a) ==> state == r.state && !passOn)
      && (!Throws(r, a) ==> (passOn <==> !heard || r.state == 2))
      && (Undecided(r, a) ==> !Throws(r, a))
  {
  }

  lemma AnswerKeepsStates(w: World, step: Step)
    requires step.Reply? && Handled(w.t, step.serial, step.id)
    requires Identified(w) && Balanced(w) && StatesTell(w) && CompletedWereHeard(w)
    ensures StatesTell(Next(w, step)) && CompletedWereHeard(Next(w, step))
  {
    AnswerDealsWithOne(w, step);
    var r := w.t.outstanding[step.id];
    DealtTells(r, step.answer, step.id in w.heard, step.id in w.undecided);
    hide TableAfter, Dealt, Throws, Undecided, StateTells;
    assert r.id == step.id;
  }

  lemma PostingKeepsStates(w: World, step: Step)
    requires step.Insert?
    requires Identified(w) && Balanced(w) && StatesTell(w) && CompletedWereHeard(w)
    ensures StatesTell(Next(w, step)) && CompletedWereHeard(Next(w, step))
  {
    hide Balanced;
  }

  lemma StepKeepsStates(w: World, step: Step)
    requires Identified(w) && Balanced(w) && StatesTell(w) && CompletedWereHeard(w)
    ensures StatesTell(Next(w, step)) && CompletedWereHeard(Next(w, step))
  {
    if step.Insert? {
      PostingKeepsStates(w, step);
    } else if step.Reply? {
      if Handled(w.t, step.serial, step.id) {
        AnswerKeepsStates(w, step);
      }
    } else {
      OnlyAnswersSettle(w, step);
      hide TableAfter, Handled, Undecided, StateTells, Identified, Balanced;
    }
  }

  lemma Appended(s: seq<nat>, p: nat)
    ensures NoDuplicates(s + [p]) <==> NoDuplicates(s) && p !in s
  {
    var t := s + [p];
    assert t[|s|] == p;
    forall i | 0 <= i < |s|
      ensures t[i] == s[i]
    {
    }
    if NoDuplicates(t) {
      forall i, j | 0 <= i < j < |s|
        ensures s[i] != s[j]
      {
        assert t[i] != t[j];
      }
    }
  }

  lemma PostingKeepsPromises(w: World, step: Step)
    requires step.Insert? && OwnPromises(w) && Identified(w)
    ensures OwnPromises(Next(w, step))
  {
  }

  lemma StepKeepsPromises(w: World, step: Step)
    requires OwnPromises(w) && Identified(w) && Balanced(w)
    ensures OwnPromises(Next(w, step))
  {
    if step.Insert? {
      PostingKeepsPromises(w, step);
    } else if step.Reply? {
      if Handled(w.t, step.serial, step.id) {
        AnswerDealsWithOne(w, step);
        var r := w.t.outstanding[step.id];
        assert r.promise == w.posted[step.id].promise;
      }
      hide TableAfter, Undecided, Handled, Balanced, Identified, Throws, MakesAgain;
    } else {
      OnlyAnswersSettle(w, step);
      hide TableAfter, Balanced, Undecided, Handled, Identified, Throws, MakesAgain;
    }
  }

  /** What an answer does to the promise of its request: a value is given unless this is the second
      answer of a deferred script, and it is a second value only after an undecided answer. */
  lemma AnswerGivesValue(w: World, step: Step)
    requires Invariant(w) && step.Reply? && Handled(w.t, step.serial, step.id)
    ensures step.id in w.posted && w.posted[step.id].promise == w.t.outstanding[step.id].promise
    ensures var r := w.t.outstanding[step.id];
      r.promise.Some? ==>
        var again := r.state == 2 && step.id in w.undecided;
        var throws := Throws(r, step.answer);
        && (throws || (step.id in w.heard && !again) ==> TableAfter(w, step).settled == w.t.settled)
        && (!throws && (step.id !in w.heard || again) ==>
            TableAfter(w, step).settled == w.t.settled + [r.promise.value])
        && (again ==> step.id in w.heard)
  {
    AnswerDealsWithOne(w, step);
    hide TableAfter, Settling, OwnPromises;
    assert w.t.outstanding[step.id] == w.posted[step.id].(state := w.t.outstanding[step.id].state);
  }

  lemma AnswerKeepsSettling(w: World, step: Step)
    requires Invariant(w) && step.Reply? && Handled(w.t, step.serial, step.id)
    ensures Settling(Next(w, step))
  {
    AnswerGivesValue(w, step);
    var r := w.t.outstanding[step.id];
    var v := Next(w, step);
    if r.promise.Some? {
      var p := r.promise.value;
      Appended(w.t.settled, p);
      hide TableAfter, Handled, StatesTell, CompletedWereHeard, NoDuplicates, Undecided, Balanced, Identified, Throws;
      assert p in w.t.settled <==> step.id in w.heard;
      forall id | id in v.posted && v.posted[id].promise.Some?
        ensures v.posted[id].promise.value in v.t.settled <==> id in v.heard
      {
        assert id != step.id ==> v.posted[id].promise != v.posted[step.id].promise;
      }
    } else {
      AnswerDealsWithOne(w, step);
      hide TableAfter, Handled, StatesTell, CompletedWereHeard, NoDuplicates, Undecided, Balanced, Identified, Throws;
    }
  }

  lemma SameSettling(w: World, v: World)
    requires Settling(w) && v.posted == w.posted && v.heard == w.heard && v.again == w.again
    requires v.t.settled == w.t.settled
    ensures Settling(v)
  {
  }

  lemma PostingKeepsSettling(w: World, step: Step)
    requires step.Insert? && Identified(w) && OwnPromises(w) && Settling(w)
    ensures Settling(Next(w, step))
  {
    hide NoDuplicates;
  }

  lemma StepKeepsSettling(w: World, step: Step)
    requires Invariant(w)
    ensures Settling(Next(w, step))
  {
    if step.Insert? {
      PostingKeepsSettling(w, step);
    } else if step.Reply? && Handled(w.t, step.serial, step.id) {
      AnswerKeepsSettling(w, step);
    } else if !step.Reply? {
      OnlyAnswersSettle(w, step);
      hide TableAfter, Settling, Balanced, StatesTell, Identified, OwnPromises, CompletedWereHeard;
      SameSettling(w, Next(w, step));
    }
  }

  lemma StepKeeps(w: World, step: Step)
    requires Invariant(w)
    ensures Invariant(Next(w, step))
  {
    StepKeepsIdentified(w, step);
    StepKeepsBalanced(w, step);
    StepKeepsStates(w, step);
    StepKeepsPromises(w, step);
    StepKeepsSettling(w, step);
  }

  lemma {:induction false} RunKeeps(steps: seq<Step>)
    ensures Invariant(Run(steps))
  {
    if steps != [] {
      RunKeeps(steps[..|steps| - 1]);
      StepKeeps(Run(steps[..|steps| - 1]), steps[|steps| - 1]);
    }
  }

  /** In every reachable state: identifiers are never above the counter and each names one request;
      a posted request is outstanding or has left, and not both; what is outstanding is what was
      posted, up to the state of a script; and what is completed was answered. */
  lemma LedgerBalances(steps: seq<Step>)
    ensures var w := Run(steps);
      && (forall id | id in w.t.outstanding :: w.t.outstanding[id].id == id && 3 < id <= w.counter)
      && (forall id | id in w.posted :: id in w.t.outstanding <==> id !in w.left)
      && (forall id | id in w.t.outstanding || id in w.left :: id in w.posted)
      && (forall id | id in w.t.outstanding :: w.t.outstanding[id] == w.posted[id].(state := w.t.outstanding[id].state))
      && (forall id | id in w.left && w.left[id] == Completed :: id in w.heard && id in w.answered)
  {
    RunKeeps(steps);
  }

  ghost predicate Extends(w: World, v: World) {
    && w.counter <= v.counter
    && (forall id | id in w.posted :: id in v.posted && v.posted[id] == w.posted[id])
    && (forall id | id in w.left :: id in v.left && v.left[id] == w.left[id])
    && (forall id | id in v.posted && id <= w.counter :: id in w.posted || id in w.taken)
    && (forall id | id in v.taken && id <= w.counter :: id in w.taken)
  }

  lemma StepExtends(w: World, step: Step)
    requires Identified(w) && Balanced(w)
    ensures Extends(w, Next(w, step))
  {
    if step.Take? || step.Insert? {
      hide TableAfter, Balanced;
    } else {
      hide TableAfter, Undecided, Handled, Identified, Throws, MakesAgain;
    }
  }

  lemma ExtendsOn(u: World, v: World, w: World)
    requires Extends(u, v) && Extends(v, w)
    ensures Extends(u, w)
  {
  }

  lemma GoneForGood(w: World, v: World)
    requires Extends(w, v) && Identified(w) && Identified(v) && Balanced(w) && Balanced(v)
    ensures forall id | id in w.left :: id !in v.t.outstanding && id !in v.taken
  {
    forall id | id in w.left
      ensures id !in v.t.outstanding && id !in v.taken
    {
      assert id in v.left && id in w.posted && id in v.posted;
    }
  }

  /** A request leaves once, for one reason, and never comes back: whatever happens next, its place
      in the ledger stays, and its identifier is not given out or posted again. */
  lemma {:induction false} LeavesOnce(steps: seq<Step>, more: seq<Step>)
    ensures Extends(Run(steps), Run(steps + more))
    ensures forall id | id in Run(steps).left ::
      id !in Run(steps + more).t.outstanding && id !in Run(steps + more).taken
    decreases |more|
  {
    hide Next, Run, Extends, Balanced, CompletedWereHeard, StatesTell, OwnPromises, Settling;
    RunKeeps(steps);
    RunKeeps(steps + more);
    if more == [] {
      assert steps + more == steps;
      ExtendsItself(Run(steps));
    } else {
      var some := more[..|more| - 1];
      LeavesOnce(steps, some);
      RunKeeps(steps + some);
      OneMoreStep(steps, more);
      StepExtends(Run(steps + some), more[|more| - 1]);
      ExtendsOn(Run(steps), Run(steps + some), Run(steps + more));
    }
    hide Identified;
    GoneForGood(Run(steps), Run(steps + more));
  }

  lemma ExtendsItself(w: World)
    ensures Extends(w, w)
  {
  }

  lemma OneMoreStep(steps: seq<Step>, more: seq<Step>)
    requires more != []
    ensures Run(steps + more) == Next(Run(steps + more[..|more| - 1]), more[|more| - 1])
  {
    assert (steps + more)[..|steps + more| - 1] == steps + more[..|more| - 1];
    LastStep(steps + more);
  }

  lemma LastStep(steps: seq<Step>)
    requires steps != []
    ensures Run(steps) == Next(Run(steps[..|steps| - 1]), steps[|steps| - 1])
  {
  }

  /** A result with a bad status that has a text. */
  predicate IsBadWithText(a: Answer) {
    a.Result? && a.status.Some? && a.status.value.Legible? && a.status.value.error != 0 && a.status.value.text
  }

  /** What takes a request out of the table: for an answer, that it comes from its device under its
      identifier and, for a deferred script without a status so far, carries a bad status with a text,
      or no result, and for a configuration that nobody waits for, can be read. */
  ghost predicate Cause(w: World, r: Request, step: Step) {
    match step
    case Take => false
    case Insert(_, _, _, _, _, _, _) => false
    case SendResult(id, delivered) => id == r.id && id in w.sending && !delivered
    case Reply(serial, id, a) =>
      && id == r.id && serial == r.serial
      && (r.kind == Script && r.state == 2 ==> a == NoResult || IsBadWithText(a))
      && (r.kind == Configure && r.promise == None ==> !ConfigureThrows(a))
    case Janitor(now) => now > r.submitted + 600_000
    case Clear(serial) => serial == r.serial
    case RemovePending(id) => id == r.id
    case Remove(uuid, id) =>
      && id == r.id && uuid == r.uuid
      && forall other | other < id && other in w.t.outstanding :: w.t.outstanding[other].uuid != uuid
  }

  /** In every reachable state, a step takes a request out exactly when it is a cause, and the ledger
      says which kind of cause it was. */
  lemma LeavesForCause(steps: seq<Step>, step: Step, id: nat)
    requires id in Run(steps).t.outstanding
    ensures var w := Run(steps);
      var v := Next(w, step);
      && (id in v.left <==> Cause(w, w.t.outstanding[id], step))
      && (id in v.left ==> v.left[id] == ReasonOf(step))
  {
    RunKeeps(steps);
    hide Run;
    var w := Run(steps);
    hide Settling, OwnPromises, CompletedWereHeard;
    CauseIsExact(w, step, id);
  }

  lemma FirstIsCause(w: World, step: Step, id: nat)
    requires step.Remove? && id in w.t.outstanding && w.t.outstanding[id].id == id
    ensures step.id == id && FirstWith(w.t, step.uuid, step.id) <==> Cause(w, w.t.outstanding[id], step)
  {
  }

  lemma EndsForCause(w: World, r: Request, step: Step)
    requires step.Reply? && step.id == r.id && step.serial == r.serial
    requires StateTells(r, r.id in w.heard, r.id in w.undecided)
    ensures Dealt(r, step.answer).0 == 0 <==> Cause(w, r, step)
  {
  }

  lemma CauseIsExact(w: World, step: Step, id: nat)
    requires Identified(w) && Balanced(w) && StatesTell(w) && id in w.t.outstanding
    ensures id in Next(w, step).left <==> Cause(w, w.t.outstanding[id], step)
    ensures id in Next(w, step).left ==> Next(w, step).left[id] == ReasonOf(step)
  {
    var r := w.t.outstanding[id];
    assert r == w.posted[id].(state := r.state) && r.id == id && id > 3 && id !in w.left;
    assert StateTells(r, id in w.heard, id in w.undecided);
    if step.Remove? {
      FirstIsCause(w, step, id);
      hide FirstWith, Cause, StateTells, StatesTell, Identified, Balanced;
    } else if step.Reply? {
      if Handled(w.t, step.serial, step.id) {
        AnswerDealsWithOne(w, step);
        if step.id == id {
          EndsForCause(w, r, step);
        }
      }
      hide TableAfter, StatesTell, Identified, Balanced, Dealt, StateTells, IsBadWithText, ConfigureThrows;
    } else {
      hide StatesTell, Identified, Balanced;
    }
  }

  /** A request is posted as it was asked for: in state 2 if it is a deferred script, in state 1 otherwise,
      and with a promise of its own if the caller waits. */
  lemma PostedAsAsked(steps: seq<Step>, id: nat, serial: u64, kind: Kind, uuid: string, rpc: bool, deferred: bool,
                      now: nat)
    requires id in Run(steps).taken
    ensures var w := Run(steps);
      var v := Next(w, Insert(id, serial, kind, uuid, rpc, deferred, now));
      var r := Request(id, serial, kind, uuid, if kind == Script && deferred then 2 else 1, now,
                       if rpc then Some(w.promises) else None, deferred);
      && v.t.outstanding == w.t.outstanding[id := r] && v.posted == w.posted[id := r]
      && id !in w.posted && (rpc ==> forall other | other in w.posted :: w.posted[other].promise != r.promise)
  {
    RunKeeps(steps);
    hide Run;
    var w := Run(steps);
    assert id !in w.posted;
    hide StatesTell, Settling, Balanced, CompletedWereHeard;
  }

  /** An answer touches the request with its identifier and nothing else, and not even that when it
      comes from another device. */
  lemma AnswerTouchesItsOwn(steps: seq<Step>, serial: u64, id: nat, a: Answer)
    ensures var w := Run(steps);
      var v := Next(w, Reply(serial, id, a));
      && (id !in w.t.outstanding || w.t.outstanding[id].serial != serial ==> v == w)
      && (forall other | other != id ::
            && (other in v.t.outstanding <==> other in w.t.outstanding)
            && (other in w.t.outstanding ==> v.t.outstanding[other] == w.t.outstanding[other]))
  {
    RunKeeps(steps);
    var w := Run(steps);
    if Handled(w.t, serial, id) {
      AnswerDealsWithOne(w, Reply(serial, id, a));
    }
  }

  /** Some answer among the steps came from the device of a request, while it was outstanding, and could
      be read: any answer but, for a deferred script, a baffling one. */
  ghost predicate WasHeard(steps: seq<Step>, r: Request) {
    exists k | 0 <= k < |steps| :: Hears(steps[k], Run(steps[..k]), r)
  }

  predicate Hears(step: Step, w: World, r: Request) {
    step.Reply? && step.id == r.id && Handled(w.t, step.serial, step.id) && !FirstThrows(r, step.answer)
  }

  /** The first answers to a request, up to one that can be read. */
  predicate FirstThrows(r: Request, a: Answer) {
    (r.kind == Script && r.deferred && Baffling(a)) || (r.kind == Configure && r.promise == None && ConfigureThrows(a))
  }

  lemma ThrowsAtFirst(r: Request, posted: Request, a: Answer, undecided: bool)
    requires StateTells(r, false, undecided) && r == posted.(state := r.state)
    ensures Throws(r, a) <==> FirstThrows(posted, a)
  {
  }

  lemma StepHears(w: World, step: Step, r: Request)
    requires Invariant(w) && (r.id in Next(w, step).posted ==> r == Next(w, step).posted[r.id])
    ensures r.id in Next(w, step).heard <==> r.id in w.heard || Hears(step, w, r)
    ensures r.id in w.posted ==> r == w.posted[r.id]
  {
    hide TableAfter, Settling, OwnPromises, CompletedWereHeard, StateTells, Throws, FirstThrows;
    if step.Reply? && Handled(w.t, step.serial, step.id) {
      var outstanding := w.t.outstanding[step.id];
      assert outstanding == w.posted[step.id].(state := outstanding.state);
      if step.id == r.id && r.id !in w.heard {
        ThrowsAtFirst(outstanding, r, step.answer, r.id in w.undecided);
      }
    }
  }

  lemma {:induction false} HeardMeans(steps: seq<Step>, r: Request)
    requires r.id in Run(steps).posted ==> r == Run(steps).posted[r.id]
    ensures r.id in Run(steps).heard <==> WasHeard(steps, r)
  {
    hide Next, Hears, Invariant;
    if steps != [] {
      var some, last := steps[..|steps| - 1], steps[|steps| - 1];
      RunKeeps(some);
      StepHears(Run(some), last, r);
      HeardMeans(some, r);
      WasHeardSteps(steps, r);
    }
  }

  lemma WasHeardSteps(steps: seq<Step>, r: Request)
    requires steps != []
    ensures var some, last := steps[..|steps| - 1], steps[|steps| - 1];
      WasHeard(steps, r) <==> WasHeard(some, r) || Hears(last, Run(some), r)
  {
    hide Hears, Run;
    var some := steps[..|steps| - 1];
    assert forall k | 0 <= k < |some| :: some[..k] == steps[..k] && some[k] == steps[k];
    if k :| 0 <= k < |steps| && Hears(steps[k], Run(steps[..k]), r) {
      assert k < |some| ==> Hears(some[k], Run(some[..k]), r);
    }
    if k :| 0 <= k < |some| && Hears(some[k], Run(some[..k]), r) {
      assert Hears(steps[k], Run(steps[..k]), r);
    }
    if Hears(steps[|some|], Run(some), r) {
      assert steps[..|some|] == some;
      assert Hears(steps[|some|], Run(steps[..|some|]), r);
    }
  }

  /** In every reachable state, a promise has a value if and only if an answer to its request could be
      read while it was outstanding, so a completed request has one; and no promise was given a value
      twice if and only if no script was answered so again after a result without a status. */
  lemma PromisesSettleOnce(steps: seq<Step>)
    ensures var w := Run(steps);
      && (forall id | id in w.posted && w.posted[id].promise.Some? ::
            && (w.posted[id].promise.value in w.t.settled <==> WasHeard(steps, w.posted[id]))
            && (id in w.left && w.left[id] == Completed ==> w.posted[id].promise.value in w.t.settled))
      && (NoDuplicates(w.t.settled) <==> w.again == {})
  {
    RunKeeps(steps);
    var w := Run(steps);
    hide Run, WasHeard;
    forall id | id in w.posted
      ensures id in w.heard <==> WasHeard(steps, w.posted[id])
    {
      HeardMeans(steps, w.posted[id]);
    }
  }

  lemma DecidedStep(w: World, step: Step)
    requires w.undecided == {} && w.again == {}
    requires step.Reply? && step.answer.Result? ==> step.answer.status.Some?
    ensures Next(w, step).undecided == {} && Next(w, step).again == {}
  {
    hide TableAfter, Handled, Throws;
  }

  lemma {:induction false} DecidedRun(steps: seq<Step>)
    requires forall i | 0 <= i < |steps| && steps[i].Reply? :: steps[i].answer.Result? ==> steps[i].answer.status.Some?
    ensures Run(steps).undecided == {} && Run(steps).again == {}
  {
    hide Next;
    if steps != [] {
      var last := |steps| - 1;
      DecidedRun(steps[..last]);
      DecidedStep(Run(steps[..last]), steps[last]);
    }
  }

  /** So it is enough that devices answer scripts with a status, or with no result at all. */
  lemma DecidedAnswersSettleOnce(steps: seq<Step>)
    requires forall i | 0 <= i < |steps| && steps[i].Reply? :: steps[i].answer.Result? ==> steps[i].answer.status.Some?
    ensures NoDuplicates(Run(steps).t.settled)
  {
    DecidedRun(steps);
    RunKeeps(steps);
  }

  const POST_SCRIPT: Step := Insert(4, 7, Script, "", true, true, 0)

  lemma AfterPostScript(a: Step)
    ensures Run([Take, POST_SCRIPT, a]) == Next(Next(Next(START, Take), POST_SCRIPT), a)
  {
    assert [Take, POST_SCRIPT, a][..2] == [Take, POST_SCRIPT];
    assert [Take, POST_SCRIPT][..1] == [Take];
    assert [Take][..0] == [];
    assert Run([Take]) == Next(START, Take);
    assert Run([Take, POST_SCRIPT]) == Next(Next(START, Take), POST_SCRIPT);
  }

  /** A deferred script whose device twice sends a result without a status has its promise set twice;
      the second time raises the error that the reply loop swallows. */
  lemma UndecidedAnswersSettleTwice()
    ensures var reply := Reply(7, 4, Result(true, None));
      Run([Take, POST_SCRIPT, reply, reply]).t.settled == [0, 0]
  {
    var reply := Reply(7, 4, Result(true, None));
    assert [Take, POST_SCRIPT, reply, reply][..3] == [Take, POST_SCRIPT, reply];
    AfterPostScript(reply);
    assert Run([Take, POST_SCRIPT, reply, reply]) == Next(Run([Take, POST_SCRIPT, reply]), reply);
  }

  /** A deferred script that fails, and whose device sends the output compressed, which leaves the text
      out: the answer is dropped, the caller gets none, and the request stays outstanding. */
  lemma BadStatusWithoutTextIsDropped()
    ensures var w := Run([Take, POST_SCRIPT, Reply(7, 4, Result(true, Some(Legible(1, false))))]);
      w.t.settled == [] && 4 in w.t.outstanding && 4 in w.answered && 4 !in w.heard
  {
    AfterPostScript(Reply(7, 4, Result(true, Some(Legible(1, false)))));
  }

  /** The first answer to a request is also the last one that it waits for. */
  predicate AnsweredAtOnce(post: Step, a: Answer)
    requires post.Insert?
  {
    && (post.kind == Script && post.deferred ==> a == NoResult || IsBadWithText(a))
    && (post.kind == Configure && !post.rpc ==> !ConfigureThrows(a))
  }

  lemma FirstDealt(r: Request, post: Step, a: Answer, promises: nat)
    requires post.Insert? && r == Posting(post, promises)
    ensures var (state, passOn) := Dealt(r, a);
      && (state == 0 <==> AnsweredAtOnce(post, a))
      && (passOn <==> !FirstThrows(r, a))
  {
  }

  lemma AnswerAfterPosting(w: World, post: Step, a: Answer)
    requires post.Insert? && post.id in w.taken && Identified(w) && Balanced(w)
    ensures var v := Next(Next(w, post), Reply(post.serial, post.id, a));
      var settles := post.rpc && !FirstThrows(Posting(post, w.promises), a);
      && v.t.settled == (if settles then w.t.settled + [w.promises] else w.t.settled)
      && post.id in v.sending && (post.id in v.t.outstanding <==> !AnsweredAtOnce(post, a))
      && (post.id in v.left <==> AnsweredAtOnce(post, a))
      && (post.id in v.left ==> v.left[post.id] == Completed)
  {
    FirstDealt(Posting(post, w.promises), post, a, w.promises);
    hide Dealt, AnsweredAtOnce, FirstThrows, Throws, Undecided, MakesAgain;
  }

  /** An answer that comes in before the sender knows that the frame went out is passed on if it can be
      read, and completes the request even if the sender then thinks it was not sent. Only a request
      that waits for another answer is withdrawn in that case. */
  lemma AnswerBeforeSendResult(steps: seq<Step>, post: Step, a: Answer, delivered: bool)
    requires post.Insert? && post.id in Run(steps).taken
    ensures var w := Run(steps);
      var v := Next(Next(Next(w, post), Reply(post.serial, post.id, a)), SendResult(post.id, delivered));
      var settles := post.rpc && !FirstThrows(Posting(post, w.promises), a);
      && v.t.settled == (if settles then w.t.settled + [w.promises] else w.t.settled)
      && (post.id in v.t.outstanding <==> !AnsweredAtOnce(post, a) && delivered)
      && (post.id in v.left <==> AnsweredAtOnce(post, a) || !delivered)
      && (post.id in v.left ==> v.left[post.id] == if AnsweredAtOnce(post, a) then Completed else NotSent)
  {
    RunKeeps(steps);
    AnswerAfterPosting(Run(steps), post, a);
    hide Run, Invariant, AnsweredAtOnce, FirstThrows, AfterReply;
  }
}
