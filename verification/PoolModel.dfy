/** The SSH channel pool as a step system: every step is one critical section of the pool
    or one move of a guard, and steps of different tasks interleave freely.

    `open_count` is what the pool believes; `Actual` is how many channels there are. */
module PoolModel {
  import opened Wrappers

  type Session = nat

  /** The fields behind the pool's mutex. */
  datatype Inner = Inner(sftp: Option<Session>, openCount: nat, channelLimit: Option<nat>)

  /** The pool together with everything that holds a channel: exec guards, permits, release
      tasks not yet run, SFTP set-ups under way, and for every SFTP session ever made the
      number of its guards and return tasks outstanding. The last three count the events
      that make the pool's belief drift; `acquired` and `released` count exec slots. */
  datatype World = World(
    inner: Inner,
    execs: nat, permits: nat, pending: nat, setups: nat,
    outstanding: map<Session, nat>, next: Session,
    acquired: nat, released: nat,
    leaked: nat, orphaned: nat, clipped: nat)

  datatype Event =
    | OpenExec            // a channel opened, wrapped in an exec guard
    | OpenSetup           // a channel opened, to become an SFTP session
    | SetupDone           // the session is made and cached
    | SetupFails          // the subsystem request or the handshake failed
    | Borrow              // the cached session is handed out
    | Return(s: Session)  // the task spawned by dropping a session guard runs
    | Discover            // an open failed: the limit is recorded
    | Evict               // ... and the cached session is evicted
    | Take                // an exec guard gives up its channel for a permit
    | DropExec            // an exec guard is dropped: a release task is spawned
    | DropPermit          // a permit is dropped: a release task is spawned
    | Release             // a release task runs

  function Initial(): World {
    World(Inner(None, 0, None), 0, 0, 0, 0, map[], 0, 0, 0, 0, 0, 0)
  }

  predicate Enabled(w: World, e: Event) {
    match e
    case SetupDone => w.setups > 0
    case SetupFails => w.setups > 0
    case Borrow => w.inner.sftp.Some? && w.inner.sftp.value in w.outstanding
    case Return(s) => s in w.outstanding && w.outstanding[s] > 0
    case Take => w.execs > 0
    case DropExec => w.execs > 0
    case DropPermit => w.permits > 0
    case Release => w.pending > 0
    case _ => true
  }

  function Minus1(n: nat): nat {
    if n == 0 then 0 else n - 1  // saturating_sub
  }

  /** Storing `s` in the cache forgets an idle session that was cached before. */
  predicate Displaces(w: World, s: Session) {
    && w.inner.sftp.Some? && w.inner.sftp.value != s
    && w.inner.sftp.value in w.outstanding && w.outstanding[w.inner.sftp.value] == 0
  }

  /** The cached session is in use, so evicting it frees no channel. */
  predicate InUse(w: World) {
    && w.inner.sftp.Some? && w.inner.sftp.value in w.outstanding
    && w.outstanding[w.inner.sftp.value] > 0
  }

  function B(b: bool): nat {
    if b then 1 else 0
  }

  function Step(w: World, e: Event): World
    requires Enabled(w, e)
  {
    match e
    case OpenExec => w.(inner := w.inner.(openCount := w.inner.openCount + 1), execs := w.execs + 1, acquired := w.acquired + 1)
    case OpenSetup => w.(inner := w.inner.(openCount := w.inner.openCount + 1), setups := w.setups + 1)
    case SetupDone =>
      w.(inner := w.inner.(sftp := Some(w.next)), setups := w.setups - 1,
         outstanding := w.outstanding[w.next := 1], next := w.next + 1,
         leaked := w.leaked + B(Displaces(w, w.next)))
    case SetupFails => w.(setups := w.setups - 1, leaked := w.leaked + 1)
    case Borrow =>
      var s := w.inner.sftp.value;
      w.(outstanding := w.outstanding[s := w.outstanding[s] + 1])
    case Return(s) =>
      w.(inner := w.inner.(sftp := Some(s)), outstanding := w.outstanding[s := w.outstanding[s] - 1],
         leaked := w.leaked + B(Displaces(w, s)))
    case Discover =>
      if w.inner.channelLimit.None? then w.(inner := w.inner.(channelLimit := Some(w.inner.openCount))) else w
    case Evict =>
      if w.inner.sftp.None? then w
      else w.(inner := w.inner.(sftp := None, openCount := Minus1(w.inner.openCount)),
              orphaned := w.orphaned + B(InUse(w)), clipped := w.clipped + B(w.inner.openCount == 0))
    case Take => w.(execs := w.execs - 1, permits := w.permits + 1)
    case DropExec => w.(execs := w.execs - 1, pending := w.pending + 1)
    case DropPermit => w.(permits := w.permits - 1, pending := w.pending + 1)
    case Release =>
      w.(inner := w.inner.(openCount := Minus1(w.inner.openCount)), pending := w.pending - 1,
         released := w.released + 1, clipped := w.clipped + B(w.inner.openCount == 0))
  }

  // ----- How many channels there really are -----

  function Live(w: World): set<Session> {
    set s | s in w.outstanding && (w.outstanding[s] > 0 || w.inner.sftp == Some(s))
  }

  function Actual(w: World): nat {
    w.execs + w.permits + w.pending + w.setups + |Live(w)|
  }

  ghost predicate WellFormed(w: World) {
    && (forall s :: s in w.outstanding ==> s < w.next)
    && (w.inner.sftp.Some? ==> w.inner.sftp.value in w.outstanding)
  }

  /** The pool's belief and the truth differ by exactly the events that make them differ:
      set-ups that failed and idle sessions that were displaced are counted for ever,
      sessions evicted while in use are not counted though open, and a subtraction at zero
      is lost. */
  ghost predicate Accounts(w: World) {
    w.inner.openCount + w.orphaned == Actual(w) + w.leaked + w.clipped
  }

  /** Every exec slot is in exactly one place: a guard, a permit, a release task, or released. */
  ghost predicate SlotsConserved(w: World) {
    w.acquired == w.execs + w.permits + w.pending + w.released
  }

  ghost predicate Inv(w: World) {
    WellFormed(w) && Accounts(w) && SlotsConserved(w)
  }

  /** Only sessions and the cache decide which sessions are live. */
  lemma LiveSame(w: World, w': World)
    requires w.outstanding == w'.outstanding && w.inner.sftp == w'.inner.sftp
    ensures Live(w') == Live(w)
  {
  }

  lemma LiveSetup(w: World)
    requires WellFormed(w) && Enabled(w, SetupDone)
    ensures |Live(Step(w, SetupDone))| + B(Displaces(w, w.next)) == |Live(w)| + 1
  {
    hide Live, Step, Displaces, WellFormed, Enabled;
    SetupMakesLive(w);
    if Displaces(w, w.next) {
      var others := Live(w) - {w.inner.sftp.value};
      assert |others| == |Live(w)| - 1 && w.next !in others;
    }
  }

  lemma SetupMakesLive(w: World)
    requires WellFormed(w) && Enabled(w, SetupDone)
    ensures w.next !in Live(w)
    ensures Displaces(w, w.next) ==> w.inner.sftp.Some? && w.inner.sftp.value in Live(w)
    ensures Live(Step(w, SetupDone))
         == (if Displaces(w, w.next) then Live(w) - {w.inner.sftp.value} else Live(w)) + {w.next}
  {
    assert w.next !in w.outstanding;
  }

  lemma LiveReturn(w: World, s: Session)
    requires WellFormed(w) && Enabled(w, Return(s))
    ensures |Live(Step(w, Return(s)))| + B(Displaces(w, s)) == |Live(w)|
  {
    var w' := Step(w, Return(s));
    assert s in Live(w);
    if Displaces(w, s) {
      assert w.inner.sftp.value in Live(w);
      assert Live(w') == Live(w) - {w.inner.sftp.value};
    } else {
      assert Live(w') == Live(w);
    }
  }

  lemma LiveEvict(w: World)
    requires WellFormed(w) && w.inner.sftp.Some?
    ensures |Live(Step(w, Evict))| + B(!InUse(w)) == |Live(w)| && |Live(w)| > 0
  {
    var w' := Step(w, Evict);
    var c := w.inner.sftp.value;
    assert c in Live(w);
    assert Live(w') == if InUse(w) then Live(w) else Live(w) - {c};
  }

  lemma StepKeepsInv(w: World, e: Event)
    requires Inv(w) && Enabled(w, e)
    ensures Inv(Step(w, e))
  {
    var w' := Step(w, e);
    match e
    case SetupDone => LiveSetup(w);
    case Borrow => assert Live(w') == Live(w);
    case Return(s) => LiveReturn(w, s);
    case Evict => if w.inner.sftp.Some? { LiveEvict(w); }
    case _ => LiveSame(w, w');
  }

  // ----- Whole runs -----

  ghost predicate Legal(w: World, run: seq<Event>)
    decreases |run|
  {
    run == [] || (Enabled(w, run[0]) && Legal(Step(w, run[0]), run[1..]))
  }

  function Run(w: World, run: seq<Event>): World
    requires Legal(w, run)
    decreases |run|
  {
    if run == [] then w else Run(Step(w, run[0]), run[1..])
  }

  /** The accounting law and the conservation of exec slots hold after every run. */
  lemma {:induction false} RunKeepsInv(w: World, run: seq<Event>)
    requires Inv(w) && Legal(w, run)
    ensures Inv(Run(w, run))
    decreases |run|
  {
    if run == [] {
    } else {
      StepKeepsInv(w, run[0]);
      RunKeepsInv(Step(w, run[0]), run[1..]);
    }
  }

  lemma EveryRunAccounts(run: seq<Event>)
    requires Legal(Initial(), run)
    ensures var w := Run(Initial(), run);
            && w.inner.openCount + w.orphaned == Actual(w) + w.leaked + w.clipped
            && w.acquired == w.execs + w.permits + w.pending + w.released
  {
    hide *;
    InitialInv();
    RunKeepsInv(Initial(), run);
    InvMeans(Run(Initial(), run));
  }

  lemma InvMeans(w: World)
    requires Inv(w)
    ensures w.inner.openCount + w.orphaned == Actual(w) + w.leaked + w.clipped
    ensures w.acquired == w.execs + w.permits + w.pending + w.released
  {
  }

  lemma InitialInv()
    ensures Inv(Initial()) && Exact(Initial()) && Initial().clipped == 0
  {
    assert Live(Initial()) == {};
  }

  // ----- Where slots and sessions are -----

  function Count(run: seq<Event>, e: Event): nat {
    if run == [] then 0 else B(run[0] == e) + Count(run[1..], e)
  }

  /** In every run: guards, permits, release tasks and set-ups are those that came about and
      have not become something else since. */
  lemma SlotsByRun(run: seq<Event>)
    requires Legal(Initial(), run)
    ensures var w := Run(Initial(), run);
            && w.execs == Count(run, OpenExec) - Count(run, Take) - Count(run, DropExec)
            && w.permits == Count(run, Take) - Count(run, DropPermit)
            && w.pending == Count(run, DropExec) + Count(run, DropPermit) - Count(run, Release)
            && w.setups == Count(run, OpenSetup) - Count(run, SetupDone) - Count(run, SetupFails)
            && w.acquired == Count(run, OpenExec) && w.released == Count(run, Release)
  {
    SlotsFrom(Initial(), run);
  }

  lemma {:induction false} SlotsFrom(w: World, run: seq<Event>)
    requires Legal(w, run)
    ensures var w' := Run(w, run);
            && w'.execs == w.execs + Count(run, OpenExec) - Count(run, Take) - Count(run, DropExec)
            && w'.permits == w.permits + Count(run, Take) - Count(run, DropPermit)
            && w'.pending == w.pending + Count(run, DropExec) + Count(run, DropPermit) - Count(run, Release)
            && w'.setups == w.setups + Count(run, OpenSetup) - Count(run, SetupDone) - Count(run, SetupFails)
            && w'.acquired == w.acquired + Count(run, OpenExec) && w'.released == w.released + Count(run, Release)
    decreases |run|
  {
    if run == [] {
    } else {
      hide Step, Enabled, B;
      SlotsFrom(Step(w, run[0]), run[1..]);
      SlotsStep(w, run[0]);
    }
  }

  lemma SlotsStep(w: World, e: Event)
    requires Enabled(w, e)
    ensures var w' := Step(w, e);
            && w'.execs == w.execs + B(e == OpenExec) - B(e == Take) - B(e == DropExec)
            && w'.permits == w.permits + B(e == Take) - B(e == DropPermit)
            && w'.pending == w.pending + B(e == DropExec) + B(e == DropPermit) - B(e == Release)
            && w'.setups == w.setups + B(e == OpenSetup) - B(e == SetupDone) - B(e == SetupFails)
            && w'.acquired == w.acquired + B(e == OpenExec) && w'.released == w.released + B(e == Release)
  {
    hide Displaces, InUse, Minus1;
  }

  /** Every slot can always be released, whatever else has happened: dropping what is held
      and running the release tasks leaves none. */
  lemma {:induction false} SlotsCanBeReleased(w: World) returns (run: seq<Event>)
    requires SlotsConserved(w)
    ensures Legal(w, run) && forall i :: 0 <= i < |run| ==> run[i] in {DropExec, DropPermit, Release}
    ensures var w' := Run(w, run);
            && w'.execs == w'.permits == w'.pending == 0 && w'.released == w'.acquired == w.acquired
            && w'.outstanding == w.outstanding && w'.inner.sftp == w.inner.sftp
            && w'.inner.openCount == if w.inner.openCount >= w.execs + w.permits + w.pending
                                     then w.inner.openCount - (w.execs + w.permits + w.pending) else 0
    decreases 2 * w.execs + 2 * w.permits + w.pending
  {
    if w.execs + w.permits + w.pending == 0 {
      run := [];
    } else {
      var e := if w.execs > 0 then DropExec else if w.permits > 0 then DropPermit else Release;
      var rest := SlotsCanBeReleased(Step(w, e));
      run := [e] + rest;
      hide Legal, Run;
      RunCons(w, e, rest);
    }
  }

  /** Borrowing the cached session and giving it back changes nothing. */
  lemma BorrowUndone(w: World)
    requires Enabled(w, Borrow)
    ensures var s := w.inner.sftp.value;
            && Enabled(Step(w, Borrow), Return(s)) && Step(Step(w, Borrow), Return(s)) == w
            && Step(w, Borrow).outstanding[s] == w.outstanding[s] + 1
  {
    var s := w.inner.sftp.value;
    assert w.outstanding[s := w.outstanding[s] + 1][s := w.outstanding[s]] == w.outstanding;
  }

  // ----- When the count is exact -----

  /** The three steps that make the count wrong, each told by what it finds. */
  predicate Clean(w: World, e: Event) {
    match e
    case SetupFails => false
    case SetupDone => !Displaces(w, w.next)
    case Return(s) => !Displaces(w, s)
    case Evict => !InUse(w)
    case _ => true
  }

  ghost predicate Exact(w: World) {
    w.inner.openCount == Actual(w)
  }

  /** From an exact state, the count stays exact if and only if the step is clean; and
      no subtraction is lost. */
  lemma ExactIffClean(w: World, e: Event)
    requires Inv(w) && Exact(w) && Enabled(w, e)
    ensures Exact(Step(w, e)) <==> Clean(w, e)
    ensures Step(w, e).clipped == w.clipped
  {
    StepKeepsInv(w, e);
    if e.Evict? && w.inner.sftp.Some? {
      assert w.inner.sftp.value in Live(w);
    }
  }

  ghost predicate CleanRun(w: World, run: seq<Event>)
    requires Legal(w, run)
    decreases |run|
  {
    run == [] || (Clean(w, run[0]) && CleanRun(Step(w, run[0]), run[1..]))
  }

  lemma {:induction false} CleanRunIsExact(w: World, run: seq<Event>)
    requires Inv(w) && Exact(w) && Legal(w, run) && CleanRun(w, run)
    ensures Exact(Run(w, run)) && Run(w, run).clipped == w.clipped
    decreases |run|
  {
    if run == [] {
    } else {
      ExactIffClean(w, run[0]);
      StepKeepsInv(w, run[0]);
      CleanRunIsExact(Step(w, run[0]), run[1..]);
    }
  }

  /** Without set-up failures, displaced sessions and evictions of a session in use, the
      count is exact at every moment and `saturating_sub` never saturates. */
  lemma CleanRunsAreExact(run: seq<Event>)
    requires Legal(Initial(), run) && CleanRun(Initial(), run)
    ensures var w := Run(Initial(), run); w.inner.openCount == Actual(w) && w.clipped == 0
  {
    hide Run, Legal, CleanRun, Actual, Live;
    InitialInv();
    CleanRunIsExact(Initial(), run);
  }

  /** The count is right at every moment of a run. */
  ghost predicate AlwaysExact(w: World, run: seq<Event>)
    requires Legal(w, run)
    decreases |run|
  {
    Exact(w) && (run == [] || AlwaysExact(Step(w, run[0]), run[1..]))
  }

  lemma {:induction false} AlwaysExactIff(w: World, run: seq<Event>)
    requires Inv(w) && Exact(w) && Legal(w, run)
    ensures AlwaysExact(w, run) <==> CleanRun(w, run)
    decreases |run|
  {
    hide Inv, Exact, Clean, Step, Enabled;
    if run == [] {
    } else {
      StepKeepsInv(w, run[0]);
      ExactIffClean(w, run[0]);
      if Clean(w, run[0]) {
        AlwaysExactIff(Step(w, run[0]), run[1..]);
      } else {
        assert !AlwaysExact(Step(w, run[0]), run[1..]);
      }
    }
  }

  /** The count is right at every moment of a run if and only if no set-up fails, no idle
      session is displaced and no session in use is evicted in it. */
  lemma AlwaysExactIffClean(run: seq<Event>)
    requires Legal(Initial(), run)
    ensures AlwaysExact(Initial(), run) <==> CleanRun(Initial(), run)
  {
    hide *;
    InitialInv();
    AlwaysExactIff(Initial(), run);
  }

  /** The channel limit is written at most once, with the count of that moment. */
  lemma {:induction false} LimitIsStable(w: World, run: seq<Event>)
    requires Legal(w, run)
    ensures w.inner.channelLimit.Some? ==> Run(w, run).inner.channelLimit == w.inner.channelLimit
    decreases |run|
  {
    if run == [] {
    } else {
      LimitIsStable(Step(w, run[0]), run[1..]);
    }
  }

  /** The attempt at position `k` is the first in the run that the server refuses. */
  ghost predicate FirstDiscovery(run: seq<Event>, k: nat) {
    k < |run| && run[k].Discover? && forall i :: 0 <= i < k ==> !run[i].Discover?
  }

  /** In every run: no limit as long as no attempt has been refused, and then for ever the
      number of channels counted when the first one was. */
  lemma {:induction false} LimitIsFirstDiscovery(w: World, run: seq<Event>)
    requires Legal(w, run) && w.inner.channelLimit.None?
    ensures Run(w, run).inner.channelLimit.None? <==> forall i :: 0 <= i < |run| ==> !run[i].Discover?
    ensures forall k: nat :: FirstDiscovery(run, k) ==>
              Legal(w, run[..k]) && Run(w, run).inner.channelLimit == Some(Run(w, run[..k]).inner.openCount)
    decreases |run|
  {
    if run == [] {
    } else {
      var w', rest := Step(w, run[0]), run[1..];
      assert run == [run[0]] + rest;
      LimitIsStable(w', rest);
      if run[0].Discover? {
        forall k: nat | FirstDiscovery(run, k) ensures k == 0 && run[..k] == [] {
          assert !(0 < k);
        }
      } else {
        LimitIsFirstDiscovery(w', rest);
        forall k: nat | FirstDiscovery(run, k)
          ensures Legal(w, run[..k]) && Run(w, run).inner.channelLimit == Some(Run(w, run[..k]).inner.openCount)
        {
          assert FirstDiscovery(rest, k - 1);
          assert run[..k][0] == run[0] && run[..k][1..] == rest[..k - 1];
        }
      }
    }
  }

  /** Eviction of a borrowed session makes the count too low, and the session comes back
      uncounted: a second eviction then subtracts at zero. */
  function LostSession(): seq<Event> {
    [OpenSetup, SetupDone, Evict, Return(0), Evict]
  }

  /** The states of that run: the session is 0, and its one guard comes back in the end. */
  function LostWorld(k: nat): World {
    var done := if k >= 2 then map[0 := if k >= 4 then 0 else 1] else map[];
    World(Inner(if k == 2 || k == 4 then Some(0) else None, B(k == 1 || k == 2), None),
          0, 0, 0, B(k == 1), done, B(k >= 2), 0, 0, 0, B(k >= 3), B(k >= 5))
  }

  lemma LostStep(k: nat)
    requires k < 5
    ensures Enabled(LostWorld(k), LostSession()[k])
    ensures Step(LostWorld(k), LostSession()[k]) == LostWorld(k + 1)
  {
  }

  lemma {:induction false} LostRun(k: nat)
    requires k <= 5
    ensures Legal(LostWorld(k), LostSession()[k..])
    ensures Run(LostWorld(k), LostSession()[k..]) == LostWorld(5)
    decreases 5 - k
  {
    hide Step, Run, Legal, LostWorld, Enabled;
    if k == 5 {
      RunNothing(LostWorld(5));
      assert LostSession()[5..] == [];
    } else {
      LostStep(k);
      LostRun(k + 1);
      RunCons(LostWorld(k), LostSession()[k], LostSession()[k + 1..]);
      assert LostSession()[k..] == [LostSession()[k]] + LostSession()[k + 1..];
    }
  }

  lemma LostSessionClips()
    ensures Legal(Initial(), LostSession())
    ensures var w := Run(Initial(), LostSession());
            w.orphaned == 1 && w.clipped == 1 && w.inner.openCount == 0
  {
    hide Run, Legal;
    LostRun(0);
    assert LostSession()[0..] == LostSession() && LostWorld(0) == Initial();
  }

  /** A set-up that fails leaves its channel counted for ever ... */
  lemma FailedSetupLeaks()
    ensures var run := [OpenSetup, SetupFails];
            Legal(Initial(), run) && Run(Initial(), run).inner.openCount == Actual(Run(Initial(), run)) + 1
  {
    hide Run, Legal, Actual, Live;
    var w1 := Step(Initial(), OpenSetup);
    var w2 := Step(w1, SetupFails);
    RunNothing(w2);
    RunCons(w1, SetupFails, []);
    RunCons(Initial(), OpenSetup, [SetupFails]);
    assert [SetupFails] + [] == [SetupFails] && [OpenSetup] + [SetupFails] == [OpenSetup, SetupFails];
    EveryRunAccounts([OpenSetup, SetupFails]);
  }

  /** ... and so does the session of a set-up that is overtaken by another. */
  function RacedSetup(): seq<Event> {
    [OpenSetup, OpenSetup, SetupDone, Return(0), SetupDone]
  }

  function RacedWorld(k: nat): World {
    var outstanding := if k < 3 then map[] else if k == 3 then map[0 := 1] else if k == 4 then map[0 := 0] else map[0 := 0, 1 := 1];
    World(Inner(if k < 3 then None else Some(B(k == 5)), if k < 2 then k else 2, None),
          0, 0, 0, if k < 3 then k else B(k < 5), outstanding, B(k >= 3) + B(k >= 5), 0, 0, B(k >= 5), 0, 0)
  }

  lemma RacedStep(k: nat)
    requires k < 5
    ensures Enabled(RacedWorld(k), RacedSetup()[k])
    ensures Step(RacedWorld(k), RacedSetup()[k]) == RacedWorld(k + 1)
  {
  }

  lemma {:induction false} RacedRun(k: nat)
    requires k <= 5
    ensures Legal(RacedWorld(k), RacedSetup()[k..])
    ensures Run(RacedWorld(k), RacedSetup()[k..]) == RacedWorld(5)
    decreases 5 - k
  {
    hide Step, Run, Legal, RacedWorld, Enabled;
    if k == 5 {
      RunNothing(RacedWorld(5));
      assert RacedSetup()[5..] == [];
    } else {
      RacedStep(k);
      RacedRun(k + 1);
      RunCons(RacedWorld(k), RacedSetup()[k], RacedSetup()[k + 1..]);
      assert RacedSetup()[k..] == [RacedSetup()[k]] + RacedSetup()[k + 1..];
    }
  }

  lemma RacedSetupLeaks()
    ensures Legal(Initial(), RacedSetup())
    ensures var w := Run(Initial(), RacedSetup()); w.inner.openCount == Actual(w) + 1
  {
    hide Run, Legal, Actual, Live;
    RacedRun(0);
    assert RacedSetup()[0..] == RacedSetup() && RacedWorld(0) == Initial();
    EveryRunAccounts(RacedSetup());
    assert RacedWorld(5).orphaned == 0 && RacedWorld(5).clipped == 0 && RacedWorld(5).leaked == 1;
  }

  lemma RunNothing(w: World)
    ensures Legal(w, []) && Run(w, []) == w
  {
  }

  lemma RunCons(w: World, e: Event, rest: seq<Event>)
    requires Enabled(w, e)
    ensures Legal(w, [e] + rest) <==> Legal(Step(w, e), rest)
    ensures Legal(w, [e] + rest) ==> Run(w, [e] + rest) == Run(Step(w, e), rest)
  {
    assert ([e] + rest)[1..] == rest;
  }
}
