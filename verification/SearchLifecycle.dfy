/** Searches of the SSH backend: each runs in its own task, can be cancelled at any time
    through a flag in a shared map, reports its matches once, then its end, then leaves the
    map. A step is one access to shared state or one command that ends. */
module SearchLifecycle {
  type Id = nat
  type Match = nat

  /** How one search command ends. */
  datatype Outcome =
    | ExecFailed                  // no channel, or the command could not be run
    | ErrorExit                   // it ran and reported an error
    | Output(matches: seq<Match>) // it ran; these are its parsed matches

  datatype Message = SearchResults(matches: seq<Match>) | SearchDone

  datatype Phase =
    | Looping   // before the cancellation check of the next command
    | Executing // between that check and the command's end
    | Reporting // all commands over: before the final check
    | Finished  // before SearchDone
    | Cleaning  // before leaving the map
    | Over

  datatype Task = Task(commands: nat, outcomes: seq<Outcome>, matches: seq<Match>, phase: Phase, emitted: seq<Message>)

  datatype World = World(
    tasks: map<Id, Task>,
    searches: set<Id>,         // the keys of the shared map
    cancelled: set<Id>,        // searches whose flag is set
    cancelling: set<Id>)       // cancel_search calls that hold a flag and have not stored yet

  datatype Event =
    | Start(id: Id, commands: nat)
    | Check(id: Id)
    | Execute(id: Id, outcome: Outcome)
    | Report(id: Id)
    | Done(id: Id)
    | Cleanup(id: Id)
    | FindFlag(id: Id)         // cancel_search looks the search up
    | StoreFlag(id: Id)        // ... and sets its flag

  function Initial(): World {
    World(map[], {}, {}, {})
  }

  predicate InPhase(w: World, id: Id, phase: Phase) {
    id in w.tasks && w.tasks[id].phase == phase
  }

  /** Identifiers are random; the model takes each to be new. */
  predicate Enabled(w: World, e: Event) {
    match e
    case Start(id, commands) => id !in w.tasks && commands > 0
    case Check(id) => InPhase(w, id, Looping)
    case Execute(id, _) => InPhase(w, id, Executing)
    case Report(id) => InPhase(w, id, Reporting)
    case Done(id) => InPhase(w, id, Finished)
    case Cleanup(id) => InPhase(w, id, Cleaning)
    case FindFlag(id) => true
    case StoreFlag(id) => id in w.cancelling
  }

  /** What a command's end does: a failure is skipped in a search of several commands and
      ends a search of one. */
  function AfterCommand(t: Task, o: Outcome): Task {
    var t' := t.(outcomes := t.outcomes + [o], phase := if |t.outcomes| + 1 == t.commands then Reporting else Looping);
    if o.Output? then t'.(matches := t.matches + o.matches)
    else if t.commands > 1 then t'
    else t'.(phase := Finished)
  }

  /** The steps a search's own task takes. */
  predicate OwnStep(e: Event) {
    e.Check? || e.Execute? || e.Report? || e.Done? || e.Cleanup?
  }

  /** What such a step does to the task; `cancelled` is what it finds in its flag. */
  function TaskStep(t: Task, e: Event, cancelled: bool): Task
    requires OwnStep(e)
  {
    match e
    case Check(_) => t.(phase := if cancelled then Finished else Executing)
    case Execute(_, o) => AfterCommand(t, o)
    case Report(_) =>
      t.(phase := Finished,
         emitted := t.emitted + if t.matches != [] && !cancelled then [SearchResults(t.matches)] else [])
    case Done(_) => t.(phase := Cleaning, emitted := t.emitted + [SearchDone])
    case Cleanup(_) => t.(phase := Over)
  }

  function Step(w: World, e: Event): World
    requires Enabled(w, e)
  {
    match e
    case Start(id, commands) =>
      w.(tasks := w.tasks[id := Task(commands, [], [], Looping, [])], searches := w.searches + {id})
    case FindFlag(id) =>
      if id in w.searches then w.(cancelling := w.cancelling + {id}) else w
    case StoreFlag(id) =>
      w.(cancelled := w.cancelled + {id}, cancelling := w.cancelling - {id})
    case _ =>
      w.(tasks := w.tasks[e.id := TaskStep(w.tasks[e.id], e, e.id in w.cancelled)],
         searches := if e.Cleanup? then w.searches - {e.id} else w.searches)
  }

  // ----- Invariants -----

  /** The matches of the commands that worked, in command order. */
  function Collected(outcomes: seq<Outcome>): seq<Match> {
    if outcomes == [] then []
    else Collected(outcomes[..|outcomes| - 1]) + if outcomes[|outcomes| - 1].Output? then outcomes[|outcomes| - 1].matches else []
  }

  /** Nothing, or one report of all that was collected, from all the commands. */
  ghost predicate ReportedAtMostOnce(t: Task, ms: seq<Message>) {
    ms == [] || (ms == [SearchResults(Collected(t.outcomes))] && Collected(t.outcomes) != [] && |t.outcomes| == t.commands)
  }

  ghost predicate TaskInv(t: Task) {
    && t.matches == Collected(t.outcomes)
    && |t.outcomes| <= t.commands
    && (t.phase.Looping? || t.phase.Executing? ==> |t.outcomes| < t.commands && t.emitted == [])
    && (t.phase.Reporting? ==> |t.outcomes| == t.commands && t.emitted == [])
    && (t.phase.Finished? ==> ReportedAtMostOnce(t, t.emitted))
    && (t.phase.Cleaning? || t.phase.Over? ==>
          t.emitted != [] && t.emitted[|t.emitted| - 1].SearchDone? && ReportedAtMostOnce(t, t.emitted[..|t.emitted| - 1]))
  }

  /** A task whose flag has never been set runs all its commands and reports all it found. */
  ghost predicate Undisturbed(t: Task) {
    && (t.phase.Finished? ==> |t.outcomes| == t.commands && t.emitted == AllFound(t.outcomes))
    && (t.phase.Cleaning? || t.phase.Over? ==>
          |t.outcomes| == t.commands && t.emitted == AllFound(t.outcomes) + [SearchDone])
  }

  /** One SearchResults with everything the working commands put out, if that is anything. */
  function AllFound(outcomes: seq<Outcome>): seq<Message> {
    if Collected(outcomes) == [] then [] else [SearchResults(Collected(outcomes))]
  }

  ghost predicate Inv(w: World) {
    && (forall id :: id in w.tasks ==> TaskInv(w.tasks[id]))
    && (forall id :: id in w.tasks && id !in w.cancelled ==> Undisturbed(w.tasks[id]))
    && (forall id :: id in w.searches <==> id in w.tasks && !w.tasks[id].phase.Over?)
    && (forall id :: id in w.cancelled + w.cancelling ==> id in w.tasks)
  }

  lemma CollectedAppend(outcomes: seq<Outcome>, o: Outcome)
    ensures Collected(outcomes + [o]) == Collected(outcomes) + if o.Output? then o.matches else []
  {
    assert (outcomes + [o])[..|outcomes|] == outcomes;
  }

  predicate AtPhase(t: Task, e: Event) {
    match e
    case Check(_) => t.phase.Looping?
    case Execute(_, _) => t.phase.Executing?
    case Report(_) => t.phase.Reporting?
    case Done(_) => t.phase.Finished?
    case Cleanup(_) => t.phase.Cleaning?
    case _ => false
  }

  lemma TaskStepKeepsInv(t: Task, e: Event, cancelled: bool)
    requires TaskInv(t) && OwnStep(e) && AtPhase(t, e)
    ensures TaskInv(TaskStep(t, e, cancelled))
    ensures TaskStep(t, e, cancelled).phase.Over? <==> e.Cleanup?
  {
    hide Collected, AllFound, Undisturbed;
    match e
    case Execute(_, o) => CollectedAppend(t.outcomes, o);
    case Done(_) => assert (t.emitted + [SearchDone])[..|t.emitted|] == t.emitted;
    case _ =>
  }

  lemma UndisturbedStep(t: Task, e: Event)
    requires TaskInv(t) && Undisturbed(t) && OwnStep(e) && AtPhase(t, e)
    ensures Undisturbed(TaskStep(t, e, false))
  {
    hide ReportedAtMostOnce, Collected;
    match e
    case Execute(_, o) =>
      CollectedAppend(t.outcomes, o);
      if t.commands == 1 {
        assert t.outcomes == [];
        NothingCollected();
      }
    case _ =>
  }

  lemma NothingCollected()
    ensures Collected([]) == []
  {
  }

  lemma TaskStepDecreases(t: Task, e: Event, cancelled: bool)
    requires TaskInv(t) && OwnStep(e) && AtPhase(t, e)
    ensures TaskInv(TaskStep(t, e, cancelled)) && StepsLeft(TaskStep(t, e, cancelled)) < StepsLeft(t)
  {
    TaskStepKeepsInv(t, e, cancelled);
    hide Collected, ReportedAtMostOnce;
  }

  lemma OwnStepKeepsInv(w: World, e: Event)
    requires Inv(w) && Enabled(w, e) && OwnStep(e)
    ensures Inv(Step(w, e))
  {
    hide TaskInv, TaskStep, Undisturbed;
    TaskStepKeepsInv(w.tasks[e.id], e, e.id in w.cancelled);
    if e.id !in w.cancelled {
      UndisturbedStep(w.tasks[e.id], e);
    }
  }

  lemma NewTaskInv(commands: nat)
    requires commands > 0
    ensures TaskInv(Task(commands, [], [], Looping, [])) && Undisturbed(Task(commands, [], [], Looping, []))
  {
  }

  lemma OtherStepKeepsInv(w: World, e: Event)
    requires Inv(w) && Enabled(w, e) && !OwnStep(e)
    ensures Inv(Step(w, e))
  {
    hide TaskInv, TaskStep, Undisturbed;
    if e.Start? {
      NewTaskInv(e.commands);
    }
  }

  lemma StepKeepsInv(w: World, e: Event)
    requires Inv(w) && Enabled(w, e)
    ensures Inv(Step(w, e))
  {
    hide *;
    if OwnStep(e) {
      OwnStepKeepsInv(w, e);
    } else {
      OtherStepKeepsInv(w, e);
    }
  }

  // ----- Whole runs -----

  ghost predicate Legal(w: World, run: seq<Event>)
    decreases |run|
  {
    run == [] || (Enabled(w, run[0]) && Legal(Step(w, run[0]), run[1..]))
  }

  function Run(w: World, run: seq<Event>): World
    requires Legal(w, run)
    decreases |run|
  {
    if run == [] then w else Run(Step(w, run[0]), run[1..])
  }

  lemma {:induction false} RunKeepsInv(w: World, run: seq<Event>)
    requires Inv(w) && Legal(w, run)
    ensures Inv(Run(w, run))
    decreases |run|
  {
    if run == [] {
    } else {
      StepKeepsInv(w, run[0]);
      RunKeepsInv(Step(w, run[0]), run[1..]);
    }
  }

  /** In every interleaving, a search that is over has sent at most one SearchResults, with
      the outputs of the commands that worked in command order, and then exactly one
      SearchDone; and the map holds exactly the searches that are not over. */
  lemma EverySearchEnds(run: seq<Event>, id: Id)
    requires Legal(Initial(), run) && id in Run(Initial(), run).tasks
    ensures var w := Run(Initial(), run);
            var t := w.tasks[id];
            && (id in w.searches <==> !t.phase.Over?)
            && (t.phase.Over? ==>
                  || t.emitted == [SearchDone]
                  || (t.emitted == [SearchResults(Collected(t.outcomes)), SearchDone] && |t.outcomes| == t.commands))
  {
    hide Run, Legal;
    RunKeepsInv(Initial(), run);
    var t := Run(Initial(), run).tasks[id];
    if t.phase.Over? {
      assert t.emitted == t.emitted[..|t.emitted| - 1] + [t.emitted[|t.emitted| - 1]];
    }
  }

  /** A search that nobody cancelled has run all its commands when it is over, and has sent
      exactly what the working ones put out, in command order, and then its end. */
  lemma UncancelledReports(run: seq<Event>, id: Id)
    requires Legal(Initial(), run)
    requires InPhase(Run(Initial(), run), id, Over) && id !in Run(Initial(), run).cancelled
    ensures var t := Run(Initial(), run).tasks[id];
            && |t.outcomes| == t.commands
            && t.emitted == if Collected(t.outcomes) == [] then [SearchDone] else [SearchResults(Collected(t.outcomes)), SearchDone]
  {
    hide Run, Legal, TaskInv, Collected;
    RunKeepsInv(Initial(), run);
  }

  /** A set flag stops the search at its next check: only the command under way still ends. */
  lemma {:induction false} CancelledStops(w: World, run: seq<Event>, id: Id)
    requires Legal(w, run) && id in w.cancelled && id in w.tasks
    ensures id in Run(w, run).tasks && id in Run(w, run).cancelled
    ensures |Run(w, run).tasks[id].outcomes| <= |w.tasks[id].outcomes| + if w.tasks[id].phase.Executing? then 1 else 0
    decreases |run|
  {
    if run == [] {
    } else {
      CancelledStops(Step(w, run[0]), run[1..], id);
    }
  }

  /** `cancel_search` finds the flag of every search that is not over, and of no other. */
  lemma CancelFindsFlag(run: seq<Event>, id: Id)
    requires Legal(Initial(), run) && id !in Run(Initial(), run).cancelling
    ensures var w := Run(Initial(), run);
            && Enabled(w, FindFlag(id))
            && (Enabled(Step(w, FindFlag(id)), StoreFlag(id)) <==> id in w.tasks && !w.tasks[id].phase.Over?)
            && Step(w, FindFlag(id)).tasks == w.tasks
  {
    hide Run, Legal, TaskInv, Undisturbed;
    RunKeepsInv(Initial(), run);
  }

  /** The text of a working command's output is in the results at the command's place: the
      outputs of the commands before it come before, those of the commands after it after. */
  lemma {:induction false} CollectedInOrder(outcomes: seq<Outcome>, k: nat)
    requires k < |outcomes| && outcomes[k].Output?
    ensures Collected(outcomes[..k]) + outcomes[k].matches <= Collected(outcomes)
    decreases |outcomes|
  {
    if k == |outcomes| - 1 {
    } else {
      var most := outcomes[..|outcomes| - 1];
      CollectedInOrder(most, k);
      assert most[..k] == outcomes[..k];
    }
  }

  /** No report has been sent, and from here on none can be. */
  ghost predicate Silenced(w: World, id: Id) {
    && id in w.cancelled && id in w.tasks
    && forall k :: 0 <= k < |w.tasks[id].emitted| ==> w.tasks[id].emitted[k].SearchDone?
  }

  /** A cancellation stored before the final check means no SearchResults, whatever happens
      afterwards. */
  lemma {:induction false} CancelledStaysSilent(w: World, run: seq<Event>, id: Id)
    requires Silenced(w, id) && Legal(w, run)
    ensures Silenced(Run(w, run), id)
    decreases |run|
  {
    if run == [] {
    } else {
      CancelledStaysSilent(Step(w, run[0]), run[1..], id);
    }
  }

  /** `cancel_search` that stores its flag before the final check silences the search. */
  lemma StoreSilences(w: World, id: Id)
    requires Inv(w) && Enabled(w, StoreFlag(id))
    requires w.tasks[id].phase in {Looping, Executing, Reporting}
    ensures Silenced(Step(w, StoreFlag(id)), id)
  {
  }

  /** A search that has left the map has sent everything it will ever send. */
  lemma {:induction false} OverIsFinal(w: World, run: seq<Event>, id: Id)
    requires InPhase(w, id, Over) && Legal(w, run)
    ensures Run(w, run).tasks.Keys >= {id} && Run(w, run).tasks[id] == w.tasks[id]
    decreases |run|
  {
    if run == [] {
    } else {
      OverIsFinal(Step(w, run[0]), run[1..], id);
    }
  }

  /** A search takes finitely many steps of its own to its end: this number goes down with
      each of them, and no other step changes the search. */
  function StepsLeft(t: Task): nat
    requires |t.outcomes| <= t.commands
  {
    match t.phase
    case Looping => 2 * (t.commands - |t.outcomes|) + 4
    case Executing => 2 * (t.commands - |t.outcomes|) + 3
    case Reporting => 3
    case Finished => 2
    case Cleaning => 1
    case Over => 0
  }

  lemma StepsMakeProgress(w: World, e: Event, id: Id)
    requires Inv(w) && Enabled(w, e) && id in w.tasks
    ensures Inv(Step(w, e)) && id in Step(w, e).tasks
    ensures if OwnStep(e) && e.id == id then StepsLeft(Step(w, e).tasks[id]) < StepsLeft(w.tasks[id])
            else Step(w, e).tasks[id] == w.tasks[id]
  {
    StepKeepsInv(w, e);
    if OwnStep(e) && e.id == id {
      TaskStepDecreases(w.tasks[id], e, id in w.cancelled);
    }
  }

  /** A search that is not over always has a step of its own to take. */
  lemma NeverStuck(w: World, id: Id) returns (e: Event)
    requires id in w.tasks && !w.tasks[id].phase.Over?
    ensures OwnStep(e) && e.id == id && Enabled(w, e)
  {
    match w.tasks[id].phase
    case Looping => e := Check(id);
    case Executing => e := Execute(id, ExecFailed);
    case Reporting => e := Report(id);
    case Finished => e := Done(id);
    case Cleaning => e := Cleanup(id);
  }

  /** A new search can always be started, and for any way its commands end it can run to its
      own end by itself: with everything they put out, then SearchDone. */
  lemma SearchCanRun(past: seq<Event>, id: Id, outcomes: seq<Outcome>) returns (run: seq<Event>)
    requires Legal(Initial(), past) && id !in Run(Initial(), past).tasks && outcomes != []
    ensures Legal(Run(Initial(), past), run) && run != [] && run[0] == Start(id, |outcomes|)
    ensures forall i :: 0 < i < |run| ==> OwnStep(run[i]) && run[i].id == id
    ensures var w := Run(Run(Initial(), past), run);
            && InPhase(w, id, Over) && w.tasks[id].outcomes == outcomes && id !in w.searches
            && w.tasks[id].emitted
            == if Collected(outcomes) == [] then [SearchDone] else [SearchResults(Collected(outcomes)), SearchDone]
  {
    hide Run, Legal, TaskInv, Collected;
    RunKeepsInv(Initial(), past);
    var w := Run(Initial(), past);
    var e := Start(id, |outcomes|);
    StepKeepsInv(w, e);
    var rest := CanFinish(Step(w, e), id, outcomes);
    run := [e] + rest;
    RunCons(w, e, rest);
    var t := Run(Step(w, e), rest).tasks[id];
    assert t.outcomes == outcomes;
  }

  lemma {:induction false} CanFinish(w: World, id: Id, outcomes: seq<Outcome>) returns (run: seq<Event>)
    requires Inv(w) && id in w.tasks && id !in w.cancelled
    requires |outcomes| == w.tasks[id].commands && w.tasks[id].outcomes <= outcomes
    ensures Legal(w, run) && forall i :: 0 <= i < |run| ==> OwnStep(run[i]) && run[i].id == id
    ensures var w' := Run(w, run);
            && Inv(w') && InPhase(w', id, Over) && id !in w'.cancelled
            && |outcomes| == w'.tasks[id].commands && w'.tasks[id].outcomes <= outcomes
    decreases StepsLeft(w.tasks[id])
  {
    hide Run, Legal, Undisturbed, Collected, StepsLeft, Step, Enabled, TaskStep, ReportedAtMostOnce;
    var t := w.tasks[id];
    if t.phase.Over? {
      run := [];
      RunNothing(w);
    } else {
      var e := NextStep(w, id, outcomes);
      StepsMakeProgress(w, e, id);
      var rest := CanFinish(Step(w, e), id, outcomes);
      run := [e] + rest;
      RunCons(w, e, rest);
    }
  }

  lemma NextStep(w: World, id: Id, outcomes: seq<Outcome>) returns (e: Event)
    requires Inv(w) && id in w.tasks && !w.tasks[id].phase.Over?
    requires |outcomes| == w.tasks[id].commands && w.tasks[id].outcomes <= outcomes
    ensures OwnStep(e) && e.id == id && Enabled(w, e)
    ensures Step(w, e).tasks[id].outcomes <= outcomes && Step(w, e).tasks[id].commands == |outcomes|
    ensures Step(w, e).cancelled == w.cancelled
  {
    hide Undisturbed, Collected;
    var t := w.tasks[id];
    if t.phase.Executing? {
      e := Execute(id, outcomes[|t.outcomes|]);
      assert t.outcomes + [outcomes[|t.outcomes|]] == outcomes[..|t.outcomes| + 1];
    } else {
      e := NeverStuck(w, id);
    }
  }

  lemma RunCons(w: World, e: Event, rest: seq<Event>)
    requires Enabled(w, e)
    ensures Legal(w, [e] + rest) <==> Legal(Step(w, e), rest)
    ensures Legal(w, [e] + rest) ==> Run(w, [e] + rest) == Run(Step(w, e), rest)
  {
    assert ([e] + rest)[1..] == rest;
  }

  lemma RunNothing(w: World)
    ensures Legal(w, []) && Run(w, []) == w
  {
  }
}
