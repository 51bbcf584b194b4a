/** The channel pool's own code: the fields behind its mutex, the methods that take the
    mutex, and the guards. Each method is tied to the steps of `PoolModel`. */
module ChannelPool {
  import opened Wrappers
  import opened PoolModel

  class Pool {
    var sftp: Option<Session>
    var openCount: nat
    var channelLimit: Option<nat>

    /** How the server answers the n-th request for a session channel. */
    const accepts: nat -> bool
    var requests: nat

    /** How many SFTP sessions were made: the next one's identity. */
    var made: nat

    /** The pool in the step system, with everything that holds a channel. */
    ghost var world: World

    ghost predicate Valid()
      reads this
    {
      world.inner == Inner(sftp, openCount, channelLimit) && world.next == made && Inv(world)
    }

    constructor (accepts: nat -> bool)
      ensures Valid() && world == Initial() && this.accepts == accepts && requests == 0
    {
      hide Inv, Exact;
      sftp, openCount, channelLimit, requests, made := None, 0, None, 0, 0;
      this.accepts := accepts;
      world := Initial();
      InitialInv();
    }

    /** What an attempt to open a channel makes of the pool: with the server's first answer
        and, after an eviction, its second. */
    static ghost function AfterOpen(w: World, use: Event, first: bool, second: bool): (World, bool)
      requires use == OpenExec || use == OpenSetup
    {
      if first then (Step(w, use), true)
      else
        var evicted := Step(Step(w, Discover), Evict);
        if w.inner.sftp.None? then (evicted, false)
        else if second then (Step(evicted, use), true)
        else (Step(Step(evicted, Discover), Evict), false)
    }

    /** Open a channel; on failure record the limit, evict the cached session and retry. The
        second failure finds nothing to evict, so the recursion ends. */
    method OpenChannel(ghost use: Event) returns (ok: bool)
      requires Valid() && (use == OpenExec || use == OpenSetup)
      modifies this
      ensures Valid()
      ensures (world, ok) == AfterOpen(old(world), use, accepts(old(requests)), accepts(old(requests) + 1))
      decreases sftp.Some?
    {
      hide Inv, Actual;
      var answer := accepts(requests);
      requests := requests + 1;
      if answer {
        StepKeepsInv(world, use);
        openCount := openCount + 1;
        world := Step(world, use);
        return true;
      }
      StepKeepsInv(world, Discover);
      if channelLimit.None? {
        channelLimit := Some(openCount);
      }
      world := Step(world, Discover);
      var evicted := EvictSftp();
      if !evicted { return false; }
      ok := OpenChannel(use);
    }

    method EvictSftp() returns (evicted: bool)
      requires Valid()
      modifies `sftp, `openCount, `world
      ensures Valid() && world == Step(old(world), Evict)
      ensures evicted <==> old(sftp).Some?
    {
      hide Inv, Actual;
      StepKeepsInv(world, Evict);
      world := Step(world, Evict);
      if sftp.Some? {
        sftp := None;
        openCount := Minus1(openCount);
        evicted := true;
      } else {
        evicted := false;
      }
    }

    method ReturnSftp(session: Session)
      requires Valid() && Enabled(world, Return(session))
      modifies `sftp, `world
      ensures Valid() && world == Step(old(world), Return(session))
    {
      hide Inv, Actual;
      StepKeepsInv(world, Return(session));
      world := Step(world, Return(session));
      sftp := Some(session);
    }

    method ReleaseSlot()
      requires Valid() && Enabled(world, Release)
      modifies `openCount, `world
      ensures Valid() && world == Step(old(world), Release)
    {
      hide Inv, Actual;
      StepKeepsInv(world, Release);
      world := Step(world, Release);
      openCount := Minus1(openCount);
    }

    /** Hand out the cached session, or open a channel and make it one. `setupWorks` tells
        whether the subsystem request and the handshake go through. */
    method Sftp(setupWorks: bool) returns (r: Result<Session>)
      requires Valid()
      modifies this
      ensures Valid()
      ensures var (opened_, ok) := AfterOpen(old(world), OpenSetup, accepts(old(requests)), accepts(old(requests) + 1));
              if old(sftp).Some? then r == Ok(old(sftp).value) && world == Step(old(world), Borrow)
              else if !ok then r == Err && world == opened_
              else if !setupWorks then r == Err && world == Step(opened_, SetupFails)
              else r == Ok(opened_.next) && world == Step(opened_, SetupDone) && sftp == Some(opened_.next)
    {
      hide Inv, Actual, AfterOpen;
      if sftp.Some? {
        CachedIsKnown(world);
        StepKeepsInv(world, Borrow);
        world := Step(world, Borrow);
        return Ok(sftp.value);
      }
      var ok := OpenChannel(OpenSetup);
      if !ok { return Err; }
      OpenedForSetup(old(world), accepts(old(requests)), accepts(old(requests) + 1));
      if !setupWorks {
        StepKeepsInv(world, SetupFails);
        world := Step(world, SetupFails);
        return Err;
      }
      var session := made;
      made := made + 1;
      sftp := Some(session);
      StepKeepsInv(world, SetupDone);
      world := Step(world, SetupDone);
      r := Ok(session);
    }
  }

  lemma CachedIsKnown(w: World)
    requires Inv(w)
    ensures w.inner.sftp.Some? ==> Enabled(w, Borrow)
  {
  }

  lemma OpenedForSetup(w: World, first: bool, second: bool)
    ensures var (w', ok) := Pool.AfterOpen(w, OpenSetup, first, second);
            ok ==> w'.setups == w.setups + 1 && w'.next == w.next
  {
  }

  /** What opening an exec channel does to the exec slots, whichever way it goes. */
  lemma OpenedForExec(w: World, first: bool, second: bool)
    ensures var (w', ok) := Pool.AfterOpen(w, OpenExec, first, second);
            && w'.execs == w.execs + B(ok) && w'.acquired == w.acquired + B(ok)
            && w'.permits == w.permits && w'.pending == w.pending && w'.released == w.released
  {
  }

  /** An exec guard: it owns its channel until `Take` or `Drop` moves the channel out. */
  class PooledExec {
    var channel: bool
    const pool: Pool

    constructor (pool: Pool)
      ensures channel && this.pool == pool
    {
      channel := true;
      this.pool := pool;
    }

    /** `Drop for PooledExec`: a release task is spawned only if the channel is still here. */
    method Drop()
      requires pool.Valid() && (channel ==> pool.world.execs > 0)
      modifies this, pool`world
      ensures pool.Valid() && !channel
      ensures pool.world == if old(channel) then Step(old(pool.world), DropExec) else old(pool.world)
    {
      hide Inv, Actual;
      if channel {
        channel := false;
        StepKeepsInv(pool.world, DropExec);
        pool.world := Step(pool.world, DropExec);
      }
    }

    /** `take(mut self)`: the channel goes to the caller with a permit for its slot; the guard
        is then dropped, which must not release the slot a second time. */
    method Take()
      requires pool.Valid() && channel && pool.world.execs > 0
      modifies this, pool`world
      ensures pool.Valid() && !channel
      ensures pool.world == Step(old(pool.world), PoolModel.Event.Take)
    {
      hide Inv, Actual;
      channel := false;
      StepKeepsInv(pool.world, PoolModel.Event.Take);
      pool.world := Step(pool.world, PoolModel.Event.Take);
      Drop();
    }
  }

  /** Open `n` exec channels; if one fails, every guard made so far is dropped. */
  method OpenExecs(pool: Pool, n: nat) returns (r: Result<seq<PooledExec>>)
    requires pool.Valid()
    modifies pool
    ensures pool.Valid()
    ensures var w, w' := old(pool.world), pool.world;
            var got := w'.acquired - w.acquired;
            && w'.permits == w.permits && w'.released == w.released
            && (r.Ok? ==> got == n && w'.execs == w.execs + n && w'.pending == w.pending)
            && (r.Err? ==> 0 <= got < n && w'.execs == w.execs && w'.pending == w.pending + got)
    ensures r.Ok? ==> |r.value| == n && forall i :: 0 <= i < n ==> fresh(r.value[i]) && r.value[i].channel && r.value[i].pool == pool
  {
    hide Inv, Actual, Pool.AfterOpen;
    var guards: seq<PooledExec> := [];
    ghost var w := pool.world;
    while |guards| < n
      invariant |guards| <= n && pool.Valid()
      invariant forall i :: 0 <= i < |guards| ==> fresh(guards[i]) && guards[i].channel && guards[i].pool == pool
      invariant forall i, j :: 0 <= i < j < |guards| ==> guards[i] != guards[j]
      invariant pool.world.execs == w.execs + |guards| && pool.world.acquired == w.acquired + |guards|
      invariant pool.world.permits == w.permits && pool.world.pending == w.pending && pool.world.released == w.released
    {
      OpenedForExec(pool.world, pool.accepts(pool.requests), pool.accepts(pool.requests + 1));
      var ok := pool.OpenChannel(OpenExec);
      if !ok {
        DropAll(pool, guards);
        return Err;
      }
      var guard := new PooledExec(pool);
      guards := guards + [guard];
    }
    r := Ok(guards);
  }

  /** Dropping a vector of guards drops each of them. */
  method DropAll(pool: Pool, guards: seq<PooledExec>)
    requires pool.Valid() && pool.world.execs >= |guards|
    requires forall i :: 0 <= i < |guards| ==> guards[i].channel && guards[i].pool == pool
    requires forall i, j :: 0 <= i < j < |guards| ==> guards[i] != guards[j]
    modifies guards, pool`world
    ensures pool.Valid()
    ensures pool.world == old(pool.world).(execs := old(pool.world).execs - |guards|, pending := old(pool.world).pending + |guards|)
  {
    hide Inv, Actual;
    for i := 0 to |guards|
      invariant pool.Valid()
      invariant forall k :: i <= k < |guards| ==> guards[k].channel
      invariant pool.world == old(pool.world).(execs := old(pool.world).execs - i, pending := old(pool.world).pending + i)
    {
      guards[i].Drop();
    }
  }
}
