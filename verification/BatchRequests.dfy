/** The answers of a request handler: to one request, to a list handled in order, and to a
    list handled by one task each. */
module BatchRequests {
  datatype ErrorKind = Interrupted | Other | Specific(code: nat)

  datatype Response = Failure(kind: ErrorKind, reason: string) | Success(value: nat)

  /** How a task that handles a request ends. */
  datatype Outcome = Returned(response: Response) | Panicked(reason: string)

  /** What a task's end means for the client: the handler's own response, or an error that
      tells of the panic. */
  ghost predicate Became(o: Outcome, r: Response) {
    && (o.Returned? ==> r == o.response)
    && (o.Panicked? ==> r.Failure? && r.kind.Other? && r.reason == o.reason)
  }

  function ResponseOf(o: Outcome): (r: Response)
    ensures Became(o, r)
  {
    match o
    case Returned(r) => r
    case Panicked(reason) => Failure(Other, reason)
  }

  const CANCELED := Failure(Interrupted, "Canceled due to earlier error")

  /** What the API makes of one request when it is in state `s`. */
  type Handler<!S, !Q> = (S, Q) -> (S, Response)

  function After<S, Q>(handle: Handler<S, Q>, s: S, list: seq<Q>): S {
    if list == [] then s
    else handle(After(handle, s, list[..|list| - 1]), list[|list| - 1]).0
  }

  lemma AfterOneMore<S, Q>(handle: Handler<S, Q>, s: S, list: seq<Q>, k: nat)
    requires k < |list|
    ensures After(handle, s, list[..k + 1]) == handle(After(handle, s, list[..k]), list[k]).0
  {
    assert list[..k + 1][..k] == list[..k];
  }

  lemma AfterNone<S, Q>(handle: Handler<S, Q>, s: S, list: seq<Q>)
    ensures After(handle, s, list[..0]) == s
  {
  }

  /** A list handled in order: exactly the requests up to the first failure reach the API,
      each in the state its predecessors left; the others are cancelled. */
  method SequentialBatch<S, Q>(handle: Handler<S, Q>, start: S, list: seq<Q>)
    returns (out: seq<Response>, end: S, executed: nat)
    ensures |out| == |list| && executed <= |list|
    ensures end == After(handle, start, list[..executed])
    ensures forall i :: 0 <= i < executed ==> out[i] == handle(After(handle, start, list[..i]), list[i]).1
    ensures forall i :: 0 <= i < executed - 1 ==> out[i].Success?
    ensures executed < |list| ==> executed > 0 && out[executed - 1].Failure?
    ensures forall i :: executed <= i < |list| ==> out[i] == Failure(Interrupted, "Canceled due to earlier error")
  {
    hide After;
    out, end, executed := [], start, 0;
    assert end == After(handle, start, list[..0]) by {
      AfterNone(handle, start, list);
    }
    var hasFailed := false;
    for k := 0 to |list|
      invariant |out| == k && executed <= k && (!hasFailed ==> executed == k)
      invariant end == After(handle, start, list[..executed])
      invariant forall i :: 0 <= i < executed ==> out[i] == handle(After(handle, start, list[..i]), list[i]).1
      invariant forall i :: 0 <= i < executed - 1 ==> out[i].Success?
      invariant hasFailed <==> executed > 0 && out[executed - 1].Failure?
      invariant forall i :: executed <= i < k ==> out[i] == CANCELED
    {
      if hasFailed {
        out := out + [CANCELED];
        continue;
      }
      AfterOneMore(handle, start, list, k);
      var (s, data) := handle(end, list[k]);
      end, executed := s, executed + 1;
      if data.Failure? {
        hasFailed := true;
      }
      out := out + [data];
    }
  }

  // ----- One task a request -----

  type Handle = nat

  /** Where the API stands after the tasks in `order` have run one after another. */
  function AfterTasks<S, Q>(api: (S, Q) -> (S, Outcome), start: S, tasks: map<Handle, Q>, order: seq<Handle>): S
    requires forall h :: h in order ==> h in tasks
  {
    if order == [] then start
    else
      assert order[|order| - 1] in order;
      api(AfterTasks(api, start, tasks, order[..|order| - 1]), tasks[order[|order| - 1]]).0
  }

  /** Adding tasks changes nothing for those that have run. */
  lemma {:induction false} AfterMoreTasks<S, Q>(api: (S, Q) -> (S, Outcome), start: S, tasks: map<Handle, Q>,
                                                more: map<Handle, Q>, order: seq<Handle>)
    requires forall h :: h in order ==> h in tasks && h in more && more[h] == tasks[h]
    ensures AfterTasks(api, start, more, order) == AfterTasks(api, start, tasks, order)
  {
    if order == [] {
    } else {
      assert order[|order| - 1] in order;
      AfterMoreTasks(api, start, tasks, more, order[..|order| - 1]);
    }
  }

  /** The k-th task to end ran in the state that those before it had left. */
  ghost predicate RanAt<S, Q>(api: (S, Q) -> (S, Outcome), start: S, tasks: map<Handle, Q>,
                              outcomes: map<Handle, Outcome>, order: seq<Handle>, k: nat)
    requires k < |order| && forall h :: h in order ==> h in tasks
  {
    order[k] in outcomes && outcomes[order[k]] == api(AfterTasks(api, start, tasks, order[..k]), tasks[order[k]]).1
  }

  /** Tasks that have run, each once, one after another in `order`. */
  ghost predicate HaveRun<S, Q>(api: (S, Q) -> (S, Outcome), start: S, state: S, tasks: map<Handle, Q>,
                                outcomes: map<Handle, Outcome>, order: seq<Handle>)
  {
    && (forall h :: h in order <==> h in outcomes)
    && (forall h :: h in order ==> h in tasks)
    && (forall i, j :: 0 <= i < j < |order| ==> order[i] != order[j])
    && state == AfterTasks(api, start, tasks, order)
    && (forall k {:trigger RanAt(api, start, tasks, outcomes, order, k)} :: 0 <= k < |order| ==>
          RanAt(api, start, tasks, outcomes, order, k))
  }

  lemma SpawnKeeps<S, Q>(api: (S, Q) -> (S, Outcome), start: S, state: S, tasks: map<Handle, Q>,
                         outcomes: map<Handle, Outcome>, order: seq<Handle>, h: Handle, request: Q)
    requires HaveRun(api, start, state, tasks, outcomes, order) && h !in tasks
    ensures HaveRun(api, start, state, tasks[h := request], outcomes, order)
  {
    hide AfterTasks;
    var more := tasks[h := request];
    AfterMoreTasks(api, start, tasks, more, order);
    forall k {:trigger RanAt(api, start, more, outcomes, order, k)} | 0 <= k < |order|
      ensures RanAt(api, start, more, outcomes, order, k)
    {
      assert RanAt(api, start, tasks, outcomes, order, k);
      AfterMoreTasks(api, start, tasks, more, order[..k]);
    }
  }

  lemma AfterOneTask<S, Q>(api: (S, Q) -> (S, Outcome), start: S, tasks: map<Handle, Q>, order: seq<Handle>, h: Handle)
    requires h in tasks && forall g :: g in order ==> g in tasks
    ensures AfterTasks(api, start, tasks, order + [h]) == api(AfterTasks(api, start, tasks, order), tasks[h]).0
  {
    assert (order + [h])[..|order|] == order;
  }

  lemma RunKeeps<S, Q>(api: (S, Q) -> (S, Outcome), start: S, state: S, tasks: map<Handle, Q>,
                       outcomes: map<Handle, Outcome>, order: seq<Handle>, h: Handle)
    requires HaveRun(api, start, state, tasks, outcomes, order) && h in tasks && h !in outcomes
    ensures var (s, o) := api(state, tasks[h]);
            HaveRun(api, start, s, tasks, outcomes[h := o], order + [h])
  {
    hide AfterTasks;
    AfterOneTask(api, start, tasks, order, h);
    var o := api(state, tasks[h]).1;
    forall k {:trigger RanAt(api, start, tasks, outcomes[h := o], order + [h], k)} | 0 <= k < |order| + 1
      ensures RanAt(api, start, tasks, outcomes[h := o], order + [h], k)
    {
      assert (order + [h])[..k] == order[..k];
      if k < |order| {
        assert RanAt(api, start, tasks, outcomes, order, k);
      } else {
        assert order[..k] == order;
      }
    }
  }

  /** A runtime for spawned tasks. Which handle a task gets, which task ends next and how many
      end before the spawner goes on are arbitrary. */
  class Runtime<S, Q> {
    const api: (S, Q) -> (S, Outcome)
    const pick: set<Handle> -> Handle
    const next: (nat, set<Handle>) -> Handle
    const pace: nat -> nat
    ghost const start: S
    var state: S
    var clock: nat
    var tasks: map<Handle, Q>
    var outcomes: map<Handle, Outcome>
    /** The tasks that have ended, in that order. */
    ghost var order: seq<Handle>

    ghost predicate Valid()
      reads this
    {
      && (forall s {:trigger pick(s)} :: pick(s) !in s)
      && (forall t, s {:trigger next(t, s)} :: s != {} ==> next(t, s) in s)
      && HaveRun(api, start, state, tasks, outcomes, order)
    }

    /** What has ended stays as it ended. */
    ghost predicate Extends(earlier: map<Handle, Outcome>)
      reads this
    {
      forall h :: h in earlier ==> h in outcomes && outcomes[h] == earlier[h]
    }

    constructor (api: (S, Q) -> (S, Outcome), start: S, pick: set<Handle> -> Handle,
                 next: (nat, set<Handle>) -> Handle, pace: nat -> nat)
      requires forall s {:trigger pick(s)} :: pick(s) !in s
      requires forall t, s {:trigger next(t, s)} :: s != {} ==> next(t, s) in s
      ensures Valid() && this.api == api && this.start == start && tasks == map[]
    {
      this.api, this.start, this.pick, this.next, this.pace := api, start, pick, next, pace;
      state, clock, tasks, outcomes, order := start, 0, map[], map[], [];
    }

    method Spawn(request: Q) returns (h: Handle)
      requires Valid()
      modifies `tasks
      ensures Valid() && h !in old(tasks) && tasks == old(tasks)[h := request]
    {
      h := pick(tasks.Keys);
      SpawnKeeps(api, start, state, tasks, outcomes, order, h, request);
      tasks := tasks[h := request];
    }

    /** One task that has not ended yet runs to its end. */
    method RunOne()
      requires Valid() && tasks.Keys != outcomes.Keys
      modifies `state, `clock, `outcomes, `order
      ensures Valid() && Extends(old(outcomes))
      ensures outcomes.Keys > old(outcomes.Keys)
    {
      var waiting := tasks.Keys - outcomes.Keys;
      assert tasks.Keys <= outcomes.Keys + waiting;
      var h := next(clock, waiting);
      RunKeeps(api, start, state, tasks, outcomes, order, h);
      var (s, o) := api(state, tasks[h]);
      outcomes, order, state, clock := outcomes[h := o], order + [h], s, clock + 1;
    }

    /** Some tasks end while the spawner does something else. */
    method RunSome()
      requires Valid()
      modifies `state, `clock, `outcomes, `order
      ensures Valid() && Extends(old(outcomes))
    {
      var n := pace(clock);
      while n > 0 && tasks.Keys != outcomes.Keys
        invariant Valid() && Extends(old(outcomes))
        decreases n
      {
        RunOne();
        n := n - 1;
      }
    }

    method Await(h: Handle) returns (o: Outcome)
      requires Valid() && h in tasks
      modifies `state, `clock, `outcomes, `order
      ensures Valid() && Extends(old(outcomes))
      ensures h in outcomes && o == outcomes[h]
    {
      while h !in outcomes
        invariant Valid() && Extends(old(outcomes))
        decreases tasks.Keys - outcomes.Keys
      {
        RunOne();
      }
      o := outcomes[h];
    }
  }

  /** The first loop: a task for each request. */
  method SpawnAll<S, Q>(rt: Runtime<S, Q>, list: seq<Q>) returns (handles: seq<Handle>)
    requires rt.Valid() && rt.tasks == map[]
    modifies rt
    ensures rt.Valid() && OneEach(rt.tasks, handles, list)
  {
    hide HaveRun;
    handles := [];
    for i := 0 to |list|
      invariant rt.Valid() && OneEach(rt.tasks, handles, list[..i])
    {
      var h := rt.Spawn(list[i]);
      handles := handles + [h];
      rt.RunSome();
    }
    assert list[..|list|] == list;
  }

  /** Different tasks for the requests of the list, position by position, and no others. */
  ghost predicate OneEach<Q>(tasks: map<Handle, Q>, handles: seq<Handle>, list: seq<Q>) {
    && |handles| == |list|
    && (forall i, j :: 0 <= i < j < |handles| ==> handles[i] != handles[j])
    && (forall h :: h in tasks <==> h in handles)
    && (forall i :: 0 <= i < |handles| ==> handles[i] in tasks && tasks[handles[i]] == list[i])
  }

  /** The join: the outcomes in the order of the handles. */
  method JoinAll<S, Q>(rt: Runtime<S, Q>, handles: seq<Handle>) returns (out: seq<Response>)
    requires rt.Valid() && forall i :: 0 <= i < |handles| ==> handles[i] in rt.tasks
    modifies rt
    ensures rt.Valid() && rt.tasks == old(rt.tasks) && |out| == |handles|
    ensures forall i :: 0 <= i < |handles| ==> handles[i] in rt.outcomes && Became(rt.outcomes[handles[i]], out[i])
  {
    hide HaveRun;
    out := [];
    for i := 0 to |handles|
      invariant rt.Valid() && |out| == i && rt.tasks == old(rt.tasks)
      invariant forall j :: 0 <= j < i ==> handles[j] in rt.outcomes && Became(rt.outcomes[handles[j]], out[j])
    {
      var o := rt.Await(handles[i]);
      out := out + [ResponseOf(o)];
    }
  }

  /** `r` is what the API made of `request` in the state that the tasks ended before `h` had
      left. */
  ghost predicate Answers<S, Q>(api: (S, Q) -> (S, Outcome), start: S, tasks: map<Handle, Q>, order: seq<Handle>,
                                h: Handle, request: Q, r: Response)
    requires forall g :: g in order ==> g in tasks
  {
    exists k :: 0 <= k < |order| && order[k] == h
                && Became(api(AfterTasks(api, start, tasks, order[..k]), request).1, r)
  }

  lemma EndedSomewhere<S, Q>(api: (S, Q) -> (S, Outcome), start: S, state: S, tasks: map<Handle, Q>,
                             outcomes: map<Handle, Outcome>, order: seq<Handle>, h: Handle, r: Response)
    requires HaveRun(api, start, state, tasks, outcomes, order) && h in outcomes && Became(outcomes[h], r)
    ensures h in tasks && Answers(api, start, tasks, order, h, tasks[h], r)
  {
    hide AfterTasks;
    var k :| 0 <= k < |order| && order[k] == h;
    assert RanAt(api, start, tasks, outcomes, order, k);
  }

  lemma AllEnded<S, Q>(api: (S, Q) -> (S, Outcome), start: S, state: S, tasks: map<Handle, Q>,
                       outcomes: map<Handle, Outcome>, order: seq<Handle>)
    requires HaveRun(api, start, state, tasks, outcomes, order)
    ensures forall i, j :: 0 <= i < j < |order| ==> order[i] != order[j]
    ensures forall h :: h in order <==> h in outcomes
    ensures forall h :: h in order ==> h in tasks
  {
    hide AfterTasks, RanAt;
  }

  /** A list handled by one task a request. Every request gets a task of its own, every task
      runs exactly once, in whatever order, and answer i is what the API made of request i in
      the state that the tasks ended before it had left. */
  method ParallelBatch<S, Q>(rt: Runtime<S, Q>, list: seq<Q>) returns (out: seq<Response>, ghost handles: seq<Handle>)
    requires rt.Valid() && rt.tasks == map[]
    modifies rt
    ensures rt.Valid() && |out| == |list| && OneEach(rt.tasks, handles, list)
    ensures forall h :: h in rt.order <==> h in handles
    ensures forall i, j :: 0 <= i < j < |rt.order| ==> rt.order[i] != rt.order[j]
    ensures forall i :: 0 <= i < |list| ==>
              Answers(rt.api, rt.start, rt.tasks, rt.order, handles[i], list[i], out[i])
  {
    hide HaveRun, AfterTasks, Answers;
    var tasks := SpawnAll(rt, list);
    handles := tasks;
    out := JoinAll(rt, tasks);
    AllEnded(rt.api, rt.start, rt.state, rt.tasks, rt.outcomes, rt.order);
    forall i | 0 <= i < |list| ensures Answers(rt.api, rt.start, rt.tasks, rt.order, handles[i], list[i], out[i]) {
      EndedSomewhere(rt.api, rt.start, rt.state, rt.tasks, rt.outcomes, rt.order, handles[i], out[i]);
    }
  }
}
