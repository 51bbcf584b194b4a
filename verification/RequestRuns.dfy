/** One request of a connection, single or a list, with every task it started: the handler
    works out its answer, puts it in front of the queued reply and flushes, while tasks send
    through the same reply whenever they like, before and after. A call of `send` reads the
    hold flag in one step and acts on it in another, because the flag's lock is given back
    in between; `flush` keeps both locks and is one step. Every interleaving is a run. */
module RequestRuns {
  import opened BatchRequests

  datatype Mode = Single | Sequential | Parallel

  datatype Message = Answer(responses: seq<Response>) | Note(sender: nat)

  datatype Phase =
    | Working
    | Answering(sawHold: bool) // inside `send_before`, past its look at the flag
    | Flushing                 // before `flush`
    | Flushed
    | Broken                   // the connection closed during `flush`

  datatype World = World(
    mode: Mode, count: nat,        // the request list's length; 1 for a single request
    executed: seq<nat>,            // requests handed to the API, in order
    outcomes: map<nat, Outcome>,   // what became of those that ended
    phase: Phase,
    hold: bool, queue: seq<Message>,
    emitted: seq<Message>, closed: bool, // the connection
    used: set<nat>,                // calls of `send` so far
    sawHold: set<nat>,             // those that saw the flag set and have not pushed yet
    sawFree: set<nat>,             // those that saw it clear and have not sent yet
    accepted: seq<nat>,            // those that returned successfully, in order of taking effect
    straddling: set<nat>)          // `sawHold` at the moment of the flush

  datatype Event =
    | Begin(i: nat)                     // request i reaches the API
    | End(i: nat, outcome: Outcome)
    | Look(sender: nat)                 // `send` reads the flag
    | Act(sender: nat)                  // ... and pushes or sends
    | LookBefore                        // `send_before` reads the flag
    | ActBefore
    | Flush(taken: nat)                 // a closing connection takes only so many
    | Close

  function Start(mode: Mode, count: nat): World {
    World(mode, count, [], map[], Working, true, [], [], false, {}, {}, {}, [], {})
  }

  predicate HasFailed(w: World) {
    exists i :: i in w.outcomes && ResponseOf(w.outcomes[i]).Failure?
  }

  /** Every request that reached the API has ended. */
  predicate Idle(w: World) {
    forall i :: i in w.executed ==> i in w.outcomes
  }

  /** The handler has its answer: everything ended, or a sequence failed. */
  predicate Ready(w: World) {
    Idle(w) && ((forall i :: 0 <= i < w.count ==> i in w.executed) || (w.mode.Sequential? && HasFailed(w)))
  }

  function Responses(w: World): seq<Response> {
    seq(w.count, i => if i in w.outcomes then ResponseOf(w.outcomes[i]) else CANCELED)
  }

  /** A panic outside a spawned task would end the handler itself and is not modelled. */
  predicate Enabled(w: World, e: Event) {
    match e
    case Begin(i) =>
      w.phase.Working? && i < w.count && i !in w.executed
      && (w.mode.Parallel? || (Idle(w) && i == |w.executed| && !HasFailed(w)))
    case End(i, o) => i in w.executed && i !in w.outcomes && (o.Panicked? ==> w.mode.Parallel?)
    case Look(id) => id !in w.used
    case Act(id) => id in w.sawHold + w.sawFree
    case LookBefore => w.phase.Working? && Ready(w)
    case ActBefore => w.phase.Answering?
    case Flush(taken) =>
      w.phase.Flushing? && if w.closed then taken == 0 else taken <= |w.queue|
    case Close => true
  }

  function Deliver(w: World, m: Message): World {
    if w.closed then w else w.(emitted := w.emitted + [m])
  }

  function Step(w: World, e: Event): World
    requires Enabled(w, e)
  {
    match e
    case Begin(i) => w.(executed := w.executed + [i])
    case End(i, o) => w.(outcomes := w.outcomes[i := o])
    case Look(id) =>
      if w.hold then w.(used := w.used + {id}, sawHold := w.sawHold + {id})
      else w.(used := w.used + {id}, sawFree := w.sawFree + {id})
    case Act(id) =>
      if id in w.sawHold then
        w.(queue := w.queue + [Note(id)], sawHold := w.sawHold - {id}, accepted := w.accepted + [id])
      else
        Deliver(w, Note(id)).(sawFree := w.sawFree - {id},
                              accepted := if w.closed then w.accepted else w.accepted + [id])
    case LookBefore => w.(phase := Answering(w.hold))
    case ActBefore =>
      var m := Answer(Responses(w));
      (if w.phase.sawHold then w.(queue := [m] + w.queue) else Deliver(w, m)).(phase := Flushing)
    case Flush(taken) =>
      var ok := taken == |w.queue|;
      w.(emitted := w.emitted + w.queue[..taken], queue := [], closed := w.closed || !ok,
         hold := if ok then false else w.hold, phase := if ok then Flushed else Broken,
         straddling := w.sawHold)
    case Close => w.(closed := true)
  }

  // ----- Notes on time and notes left behind -----

  function Only(s: seq<nat>, keep: set<nat>): seq<Message> {
    if s == [] then []
    else Only(s[..|s| - 1], keep) + if s[|s| - 1] in keep then [Note(s[|s| - 1])] else []
  }

  function Without(s: seq<nat>, drop: set<nat>): seq<Message> {
    if s == [] then []
    else Without(s[..|s| - 1], drop) + if s[|s| - 1] in drop then [] else [Note(s[|s| - 1])]
  }

  lemma Appended(s: seq<nat>, x: nat, ids: set<nat>)
    ensures Only(s + [x], ids) == Only(s, ids) + if x in ids then [Note(x)] else []
    ensures Without(s + [x], ids) == Without(s, ids) + if x in ids then [] else [Note(x)]
  {
    assert (s + [x])[..|s|] == s;
  }

  /** Nothing is dropped when the set is disjoint from the sequence. */
  lemma {:induction false} WithoutNone(s: seq<nat>, drop: set<nat>, other: set<nat>)
    requires forall x :: x in s ==> x !in drop && x !in other
    ensures Only(s, drop) == [] && Without(s, drop) == Without(s, other)
  {
    if s == [] {
    } else {
      assert s[|s| - 1] in s;
      WithoutNone(s[..|s| - 1], drop, other);
    }
  }

  lemma {:induction false} OnlyContains(s: seq<nat>, keep: set<nat>, x: nat)
    ensures Note(x) in Only(s, keep) <==> x in s && x in keep
    ensures Note(x) in Without(s, keep) <==> x in s && x !in keep
  {
    if s == [] {
    } else {
      OnlyContains(s[..|s| - 1], keep, x);
      assert x in s <==> x in s[..|s| - 1] || x == s[|s| - 1];
    }
  }

  /** The notes of all these senders, in order. */
  function Notes(s: seq<nat>): seq<Message> {
    seq(|s|, i requires 0 <= i < |s| => Note(s[i]))
  }

  lemma {:induction false} WithoutNothing(s: seq<nat>)
    ensures Without(s, {}) == Notes(s)
  {
    if s == [] {
    } else {
      WithoutNothing(s[..|s| - 1]);
    }
  }

  // ----- Invariants -----

  /** Which requests reached the API, and which of those ended. */
  ghost predicate HandlerInv(w: World) {
    && (forall i, j :: 0 <= i < j < |w.executed| ==> w.executed[i] != w.executed[j])
    && (forall i :: i in w.executed ==> i < w.count)
    && (forall i :: i in w.outcomes ==> i in w.executed)
    && (!w.mode.Parallel? ==>
          && (forall k :: 0 <= k < |w.executed| ==> w.executed[k] == k)
          && (forall k :: 0 <= k < |w.executed| - 1 ==> k in w.outcomes && ResponseOf(w.outcomes[k]).Success?))
  }

  ghost predicate SendersInv(w: World) {
    && w.sawHold !! w.sawFree && w.sawHold + w.sawFree <= w.used
    && (forall id :: id in w.accepted ==> id in w.used && id !in w.sawHold + w.sawFree)
    && (forall i, j :: 0 <= i < j < |w.accepted| ==> w.accepted[i] != w.accepted[j])
    && (forall id :: id in w.used ==> id in w.sawHold + w.sawFree || id in w.accepted || w.closed)
  }

  /** Where every accepted message is, phase by phase. */
  ghost predicate QueueInv(w: World) {
    match w.phase
    case Flushed =>
      && !w.hold
      && (forall id :: id in w.straddling ==> id in w.sawHold || id in w.accepted)
      && w.sawHold <= w.straddling && w.sawFree !! w.straddling
      && w.emitted == [Answer(Responses(w))] + Without(w.accepted, w.straddling)
      && w.queue == Only(w.accepted, w.straddling)
    case Broken =>
      && w.hold && w.sawFree == {} && w.closed
      && w.emitted <= [Answer(Responses(w))] + Without(w.accepted, w.straddling)
    case _ =>
      && w.hold && w.sawFree == {} && w.emitted == []
      && w.queue == (if w.phase.Flushing? then [Answer(Responses(w))] else []) + Without(w.accepted, {})
      && (w.phase.Answering? ==> w.phase.sawHold)
  }

  ghost predicate Inv(w: World) {
    HandlerInv(w) && SendersInv(w) && QueueInv(w) && (w.phase.Working? || Ready(w))
  }

  lemma StartInv(mode: Mode, count: nat)
    ensures Inv(Start(mode, count))
  {
  }

  lemma BeginKeepsHandlerInv(w: World, i: nat)
    requires HandlerInv(w) && Enabled(w, Begin(i))
    ensures HandlerInv(Step(w, Begin(i)))
  {
    if !w.mode.Parallel? {
      forall k | 0 <= k < |w.executed| ensures k in w.outcomes && ResponseOf(w.outcomes[k]).Success? {
        assert w.executed[k] == k && w.executed[k] in w.executed;
      }
    }
  }

  lemma EndKeepsHandlerInv(w: World, i: nat, o: Outcome)
    requires HandlerInv(w) && Enabled(w, End(i, o))
    ensures HandlerInv(Step(w, End(i, o)))
  {
    if !w.mode.Parallel? {
      assert i == |w.executed| - 1;
    }
  }

  lemma HandlerInvKept(w: World, e: Event)
    requires HandlerInv(w) && Enabled(w, e)
    ensures HandlerInv(Step(w, e))
  {
    if e.Begin? {
      BeginKeepsHandlerInv(w, e.i);
    } else if e.End? {
      EndKeepsHandlerInv(w, e.i, e.outcome);
    } else {
      HandlerUntouched(w, e);
      hide Step, Enabled;
    }
  }

  lemma HandlerUntouched(w: World, e: Event)
    requires Enabled(w, e) && !e.Begin? && !e.End?
    ensures var w' := Step(w, e);
            w'.mode == w.mode && w'.count == w.count && w'.executed == w.executed && w'.outcomes == w.outcomes
  {
  }

  lemma SendersInvKept(w: World, e: Event)
    requires SendersInv(w) && Enabled(w, e)
    ensures SendersInv(Step(w, e))
  {
    hide HasFailed, Idle, Ready, Responses, Only, Without;
    if e.Act? {
      ActKeepsSendersInv(w, e.sender);
    }
  }

  lemma ActKeepsSendersInv(w: World, id: nat)
    requires SendersInv(w) && Enabled(w, Act(id))
    ensures SendersInv(Step(w, Act(id)))
  {
    hide HasFailed, Idle, Ready, Responses, Only, Without;
  }

  /** The answer is worked out from what is final once the handler has it. */
  lemma AnswerKept(w: World, e: Event)
    requires Enabled(w, e) && !w.phase.Working? && Ready(w)
    ensures Ready(Step(w, e)) && Responses(Step(w, e)) == Responses(w) && Step(w, e).executed == w.executed
  {
  }

  lemma ActKeepsQueueInv(w: World, id: nat)
    requires SendersInv(w) && QueueInv(w) && Enabled(w, Act(id))
    requires !w.phase.Working? ==> Ready(w)
    ensures QueueInv(Step(w, Act(id)))
  {
    hide HasFailed, Idle, Ready, Only, Without;
    Appended(w.accepted, id, w.straddling);
    Appended(w.accepted, id, {});
    assert Responses(Step(w, Act(id))) == Responses(w);
  }

  lemma QueueInvKept(w: World, e: Event)
    requires SendersInv(w) && QueueInv(w) && Enabled(w, e)
    requires !w.phase.Working? ==> Ready(w)
    ensures QueueInv(Step(w, e))
  {
    hide HasFailed, Idle, Only, Without;
    if e.Act? {
      ActKeepsQueueInv(w, e.sender);
    } else if e.Flush? {
      assert w.queue[..|w.queue|] == w.queue;
      WithoutNone(w.accepted, w.sawHold, {});
    } else if !w.phase.Working? {
      AnswerKept(w, e);
    }
  }

  lemma StepKeepsInv(w: World, e: Event)
    requires Inv(w) && Enabled(w, e)
    ensures Inv(Step(w, e))
  {
    hide HandlerInv, SendersInv, QueueInv, Responses;
    HandlerInvKept(w, e);
    SendersInvKept(w, e);
    QueueInvKept(w, e);
    if !w.phase.Working? {
      AnswerKept(w, e);
    }
  }

  // ----- Whole runs -----

  ghost predicate Legal(w: World, run: seq<Event>)
    decreases |run|
  {
    run == [] || (Enabled(w, run[0]) && Legal(Step(w, run[0]), run[1..]))
  }

  function Run(w: World, run: seq<Event>): World
    requires Legal(w, run)
    decreases |run|
  {
    if run == [] then w else Run(Step(w, run[0]), run[1..])
  }

  lemma {:induction false} RunKeepsInv(w: World, run: seq<Event>)
    requires Inv(w) && Legal(w, run)
    ensures Inv(Run(w, run))
    decreases |run|
  {
    if run == [] {
    } else {
      StepKeepsInv(w, run[0]);
      RunKeepsInv(Step(w, run[0]), run[1..]);
    }
  }

  /** The run of a request up to some point. */
  ghost predicate Reached(mode: Mode, count: nat, run: seq<Event>, w: World) {
    Legal(Start(mode, count), run) && w == Run(Start(mode, count), run)
  }

  /** In every interleaving, whatever goes out starts with the request's own answer and goes
      on with accepted messages in the order the tasks sent them, none twice. */
  lemma AnswerGoesFirst(mode: Mode, count: nat, run: seq<Event>, w: World)
    requires Reached(mode, count, run, w)
    ensures w.emitted == [] || w.emitted[0] == Answer(Responses(w))
    ensures w.emitted <= [Answer(Responses(w))] + Without(w.accepted, w.straddling)
    ensures forall i, j :: 0 <= i < j < |w.accepted| ==> w.accepted[i] != w.accepted[j]
    ensures forall id :: id in w.accepted ==> id in w.used
  {
    hide Run, Legal, Responses, Without;
    StartInv(mode, count);
    RunKeepsInv(Start(mode, count), run);
  }

  /** Everything is over: the answer went out and no call of `send` is under way. */
  predicate Settled(w: World) {
    w.phase.Flushed? && w.sawHold == {} && w.sawFree == {}
  }

  lemma NobodyStraddled(w: World)
    requires QueueInv(w) && w.phase.Flushed? && w.straddling == {}
    ensures w.emitted == [Answer(Responses(w))] + Notes(w.accepted) && w.queue == []
  {
    hide Responses, Only, Without, Notes;
    WithoutNothing(w.accepted);
    WithoutNone(w.accepted, {}, {});
  }

  lemma SomebodyStraddled(w: World, id: nat)
    requires QueueInv(w) && Settled(w) && id in w.straddling
    ensures Note(id) in w.queue && Note(id) !in w.emitted && Note(id) in Notes(w.accepted)
  {
    hide Responses, Only, Without;
    OnlyContains(w.accepted, w.straddling, id);
    var k :| 0 <= k < |w.accepted| && w.accepted[k] == id;
    assert Notes(w.accepted)[k] == Note(id);
  }

  /** On a connection that stays open, every message of every task goes out, once and in
      order, if and only if no call of `send` was between reading the flag and acting on it
      when the queue was flushed. */
  lemma NothingLostIff(mode: Mode, count: nat, run: seq<Event>, w: World)
    requires Reached(mode, count, run, w) && Settled(w) && !w.closed
    ensures w.straddling == {} <==> w.emitted == [Answer(Responses(w))] + Notes(w.accepted)
    ensures w.straddling == {} <==> w.queue == []
    ensures forall id :: id in w.used <==> id in w.accepted
  {
    hide Run, Legal, Responses, Only, Without, Notes, QueueInv, HandlerInv;
    StartInv(mode, count);
    RunKeepsInv(Start(mode, count), run);
    if w.straddling == {} {
      NobodyStraddled(w);
    } else {
      var id :| id in w.straddling;
      SomebodyStraddled(w, id);
      assert Note(id) in [Answer(Responses(w))] + Notes(w.accepted);
    }
  }

  lemma {:induction false} StraddlingIsFixed(w: World, run: seq<Event>)
    requires w.phase.Flushed? && Legal(w, run)
    ensures Run(w, run).phase.Flushed? && Run(w, run).straddling == w.straddling
    decreases |run|
  {
    if run == [] {
    } else {
      StraddlingIsFixed(Step(w, run[0]), run[1..]);
    }
  }

  /** A message whose `send` straddled the flush never goes out, whatever happens later. */
  lemma StraddlerIsStuck(w: World, run: seq<Event>, id: nat)
    requires Inv(w) && w.phase.Flushed? && id in w.straddling && Legal(w, run)
    ensures Note(id) !in Run(w, run).emitted
  {
    RunKeepsInv(w, run);
    StraddlingIsFixed(w, run);
    var w' := Run(w, run);
    OnlyContains(w'.accepted, w'.straddling, id);
  }

  /** A run that loses a message: a task looks at the flag, the handler answers and flushes,
      the task pushes. */
  lemma LosesAMessage()
    ensures exists run, w ::
      && Reached(Single, 1, run, w) && Settled(w) && !w.closed
      && w.accepted == [7] && w.queue == [Note(7)] && w.emitted == [Answer([Success(0)])]
  {
    hide *;
    var ok := Returned(Success(0));
    var answer := Answer([Success(0)]);
    var w0 := World(Single, 1, [], map[], Working, true, [], [], false, {}, {}, {}, [], {});
    var w1 := w0.(executed := [0]);
    var w2 := w1.(outcomes := map[0 := ok]);
    var w3 := w2.(used := {7}, sawHold := {7});
    var w4 := w3.(phase := Answering(true));
    var w5 := w4.(queue := [answer], phase := Flushing);
    var w6 := w5.(queue := [], emitted := [answer], hold := false, phase := Flushed, straddling := {7});
    var w7 := w6.(queue := [Note(7)], sawHold := {}, accepted := [7]);
    LosingSteps(w0, w1, w2, w3, w4);
    LosingStepsAfter(w4, w5, w6, w7);
    RunsNowhere(w7);
    var r6 := RunsTo(w6, Act(7), []);
    var r5 := RunsTo(w5, Flush(1), r6);
    var r4 := RunsTo(w4, ActBefore, r5);
    var r3 := RunsTo(w3, LookBefore, r4);
    var r2 := RunsTo(w2, Look(7), r3);
    var r1 := RunsTo(w1, End(0, ok), r2);
    var r0 := RunsTo(w0, Begin(0), r1);
    IsReached(w0, r0, w7);
  }

  lemma IsReached(w0: World, run: seq<Event>, w: World)
    requires w0 == World(Single, 1, [], map[], Working, true, [], [], false, {}, {}, {}, [], {})
    requires Legal(w0, run) && w == Run(w0, run)
    requires w.phase.Flushed? && w.sawHold == {} && w.sawFree == {}
    ensures Reached(Single, 1, run, w) && Settled(w)
  {
  }

  lemma LosingSteps(w0: World, w1: World, w2: World, w3: World, w4: World)
    requires w0 == World(Single, 1, [], map[], Working, true, [], [], false, {}, {}, {}, [], {})
    requires w1 == w0.(executed := [0])
    requires w2 == w1.(outcomes := map[0 := Returned(Success(0))])
    requires w3 == w2.(used := {7}, sawHold := {7})
    requires w4 == w3.(phase := Answering(true))
    ensures Enabled(w0, Begin(0)) && Step(w0, Begin(0)) == w1
    ensures Enabled(w1, End(0, Returned(Success(0)))) && Step(w1, End(0, Returned(Success(0)))) == w2
    ensures Enabled(w2, Look(7)) && Step(w2, Look(7)) == w3
    ensures Enabled(w3, LookBefore) && Step(w3, LookBefore) == w4
  {
  }

  lemma LosingStepsAfter(w4: World, w5: World, w6: World, w7: World)
    requires w4.count == 1 && w4.outcomes == map[0 := Returned(Success(0))] && w4.phase == Answering(true)
    requires w4.hold && w4.queue == [] && w4.emitted == [] && !w4.closed && w4.sawHold == {7} && w4.accepted == []
    requires w5 == w4.(queue := [Answer([Success(0)])], phase := Flushing)
    requires w6 == w5.(queue := [], emitted := [Answer([Success(0)])], hold := false, phase := Flushed, straddling := {7})
    requires w7 == w6.(queue := [Note(7)], sawHold := {}, accepted := [7])
    ensures Enabled(w4, ActBefore) && Step(w4, ActBefore) == w5
    ensures Enabled(w5, Flush(1)) && Step(w5, Flush(1)) == w6
    ensures Enabled(w6, Act(7)) && Step(w6, Act(7)) == w7
  {
    assert Responses(w4) == [Success(0)];
  }

  lemma RunsNowhere(w: World)
    ensures Legal(w, []) && Run(w, []) == w
  {
  }

  lemma RunsTo(w: World, e: Event, rest: seq<Event>) returns (run: seq<Event>)
    requires Enabled(w, e) && Legal(Step(w, e), rest)
    ensures Legal(w, run) && Run(w, run) == Run(Step(w, e), rest)
  {
    run := [e] + rest;
    assert run[1..] == rest;
  }

  /** The first `k` requests, and no others, reached the API; all but the last succeeded. */
  ghost predicate StoppedAfter(w: World, k: nat) {
    && k == |w.executed| <= w.count
    && (forall i :: 0 <= i < k ==> w.executed[i] == i)
    && (forall i :: i in w.outcomes <==> 0 <= i < k)
    && (forall i :: 0 <= i < k - 1 ==> ResponseOf(w.outcomes[i]).Success?)
    && (k < w.count ==> k > 0 && ResponseOf(w.outcomes[k - 1]).Failure?)
  }

  lemma SequentialStops(w: World)
    requires HandlerInv(w) && Ready(w) && w.mode.Sequential?
    ensures StoppedAfter(w, |w.executed|)
  {
    var k := |w.executed|;
    assert k > 0 ==> w.executed[k - 1] == k - 1 && k - 1 in w.executed;
    forall i ensures i in w.executed <==> 0 <= i < k {
      if 0 <= i < k {
        assert w.executed[i] == i;
      }
    }
    if k < w.count {
      assert k !in w.executed;
      var i :| i in w.outcomes && ResponseOf(w.outcomes[i]).Failure?;
      assert i == k - 1;
    }
  }

  /** A list handled in order: exactly its first requests, up to and including the first
      that failed, reach the API, in order; every later position is cancelled. */
  lemma SequentialAnswer(count: nat, run: seq<Event>, w: World)
    requires Reached(Sequential, count, run, w) && !w.phase.Working?
    ensures var k := |w.executed|;
            && |Responses(w)| == count && k <= count
            && (forall i :: 0 <= i < k ==> w.executed[i] == i && i in w.outcomes && Became(w.outcomes[i], Responses(w)[i]))
            && (forall i :: 0 <= i < k - 1 ==> Responses(w)[i].Success?)
            && (k < count ==> k > 0 && Responses(w)[k - 1].Failure?)
            && (forall i :: k <= i < count ==> Responses(w)[i] == Failure(Interrupted, "Canceled due to earlier error"))
  {
    hide Run, Legal, HandlerInv, SendersInv, QueueInv, Ready, HasFailed, Idle;
    StartInv(Sequential, count);
    RunKeepsInv(Start(Sequential, count), run);
    ModeIsFixed(Start(Sequential, count), run);
    SequentialStops(w);
  }

  /** A list handled by tasks: whatever the order in which they run and end, each request
      reaches the API exactly once and answer i is what became of request i. */
  lemma ParallelAnswer(count: nat, run: seq<Event>, w: World)
    requires Reached(Parallel, count, run, w) && !w.phase.Working?
    ensures |Responses(w)| == count
    ensures forall i :: i in w.executed <==> 0 <= i < count
    ensures forall i, j :: 0 <= i < j < |w.executed| ==> w.executed[i] != w.executed[j]
    ensures forall i :: 0 <= i < count ==> i in w.outcomes && Became(w.outcomes[i], Responses(w)[i])
  {
    hide Run, Legal;
    StartInv(Parallel, count);
    RunKeepsInv(Start(Parallel, count), run);
    ModeIsFixed(Start(Parallel, count), run);
  }

  /** A single request: it reaches the API once, and what goes out first is what its handler
      returned. */
  lemma SingleAnswer(run: seq<Event>, w: World)
    requires Reached(Single, 1, run, w) && !w.phase.Working?
    ensures w.executed == [0] && 0 in w.outcomes && w.outcomes[0].Returned?
    ensures Responses(w) == [w.outcomes[0].response]
    ensures w.emitted == [] || w.emitted[0] == Answer([w.outcomes[0].response])
  {
    hide Run, Legal;
    StartInv(Single, 1);
    RunKeepsInv(Start(Single, 1), run);
    ModeIsFixed(Start(Single, 1), run);
    NoPanics(Start(Single, 1), run);
    AnswerGoesFirst(Single, 1, run, w);
    FirstOnly(w);
  }

  lemma FirstOnly(w: World)
    requires HandlerInv(w) && w.count == 1 && !w.mode.Parallel? && 0 in w.executed
    ensures w.executed == [0]
  {
    var last := |w.executed| - 1;
    assert w.executed[last] == last && w.executed[last] in w.executed;
  }

  /** Only spawned tasks can end in a panic that the handler survives. */
  lemma {:induction false} NoPanics(w: World, run: seq<Event>)
    requires Legal(w, run) && !w.mode.Parallel? && forall i :: i in w.outcomes ==> w.outcomes[i].Returned?
    ensures forall i :: i in Run(w, run).outcomes ==> Run(w, run).outcomes[i].Returned?
    decreases |run|
  {
    if run == [] {
    } else {
      NoPanics(Step(w, run[0]), run[1..]);
    }
  }

  lemma {:induction false} ModeIsFixed(w: World, run: seq<Event>)
    requires Legal(w, run)
    ensures Run(w, run).mode == w.mode && Run(w, run).count == w.count
    decreases |run|
  {
    if run == [] {
    } else {
      ModeIsFixed(Step(w, run[0]), run[1..]);
    }
  }

  /** Once the handler has its answer, nothing changes it: what goes out first is the
      answer it worked out. */
  lemma {:induction false} AnswerIsFixed(w: World, run: seq<Event>)
    requires Inv(w) && !w.phase.Working? && Legal(w, run)
    ensures Responses(Run(w, run)) == Responses(w) && Run(w, run).executed == w.executed
    ensures !Run(w, run).phase.Working?
    decreases |run|
  {
    if run == [] {
    } else {
      hide HandlerInv, SendersInv, QueueInv, Responses, Ready, HasFailed, Idle;
      StepKeepsInv(w, run[0]);
      AnswerKept(w, run[0]);
      AnswerIsFixed(Step(w, run[0]), run[1..]);
    }
  }

  /** A call of `send` that nothing comes between succeeds on an open connection: while the
      messages are held it ends up last in the queue, afterwards it goes out at once. */
  lemma SendLands(mode: Mode, count: nat, run: seq<Event>, w: World, id: nat)
    requires Reached(mode, count, run, w) && id !in w.used && !w.closed
    ensures Enabled(w, Look(id)) && Enabled(Step(w, Look(id)), Act(id))
    ensures var w' := Step(Step(w, Look(id)), Act(id));
            && w'.accepted == w.accepted + [id]
            && (if w.phase.Flushed? then w'.emitted == w.emitted + [Note(id)] && w'.queue == w.queue
                else w'.emitted == w.emitted && w'.queue == w.queue + [Note(id)])
  {
    hide Run, Legal, Ready, Responses, Idle, HandlerInv;
    StartInv(mode, count);
    RunKeepsInv(Start(mode, count), run);
  }

  /** A connection can close at any time, and then nothing more goes out. */
  lemma CloseSilences(w: World, rest: seq<Event>)
    ensures Enabled(w, Close)
    ensures Legal(Step(w, Close), rest) ==> Run(Step(w, Close), rest).emitted == w.emitted
  {
    if Legal(Step(w, Close), rest) {
      ClosedIsSilent(Step(w, Close), rest);
    }
  }

  lemma {:induction false} ClosedIsSilent(w: World, run: seq<Event>)
    requires Legal(w, run) && w.closed
    ensures Run(w, run).closed && Run(w, run).emitted == w.emitted
    decreases |run|
  {
    hide Ready, Responses, Idle;
    if run == [] {
    } else {
      ClosedIsSilent(Step(w, run[0]), run[1..]);
    }
  }

  /** A handler that has not flushed yet always has a step of its own to take. */
  lemma HandlerCanMove(w: World) returns (e: Event)
    requires Inv(w) && !w.phase.Flushed? && !w.phase.Broken?
    requires w.mode.Single? ==> w.count == 1
    ensures Enabled(w, e) && !e.Look? && !e.Act? && !e.Close?
  {
    match w.phase
    case Answering(_) => e := ActBefore;
    case Flushing => e := Flush(0);
    case Working =>
      if i :| i in w.executed && i !in w.outcomes {
        e := End(i, Returned(Success(0)));
      } else if Ready(w) {
        e := LookBefore;
      } else {
        var i :| 0 <= i < w.count && i !in w.executed;
        e := Begin(if w.mode.Parallel? then i else |w.executed|);
        FirstMissing(w, i);
      }
  }

  lemma FirstMissing(w: World, i: nat)
    requires HandlerInv(w) && i < w.count && i !in w.executed && Idle(w) && !Ready(w)
    requires w.mode.Single? ==> w.count == 1
    ensures !w.mode.Parallel? ==> |w.executed| < w.count && |w.executed| !in w.executed && !HasFailed(w)
  {
    if !w.mode.Parallel? {
      var k := |w.executed|;
      forall j | 0 <= j < k ensures j in w.executed {
        assert w.executed[j] == j;
      }
      assert k !in w.executed;
      assert w.mode.Single? ==> w.executed == [];
    }
  }
}
