/** The tunnel map, the listener map and the id counter of the SSH backend, shared by all
    operations. A step is one critical section; operations made of several steps interleave
    with each other and with relays that end. */
module TunnelRegistry {
  type Id = nat
  type Key = (string, nat)  // host and port of a reverse listener

  const WRAP: nat := 0x1_0000_0000  // ids come from a 32-bit counter

  datatype Direction = Forward | Reverse(key: Key)

  datatype World = World(
    counter: nat,                // NEXT_TUNNEL_ID
    issued: seq<Id>,             // every id handed out, in order
    opening: set<Id>,            // tunnel_open between taking an id and inserting it
    listening: map<Id, Key>,     // tunnel_listen between taking an id and registering it
    listed: map<Id, Key>,        // ... between the listener map and the tunnel map
    tunnels: map<Id, Direction>,
    listeners: map<Key, Id>,
    closing: set<Id>,            // tunnel_close between the two maps
    retired: set<Id>)            // ids removed from the tunnel map

  datatype Event =
    | TakeId                 // tunnel_open, or an incoming forwarded connection, takes an id
    | Insert(id: Id)         // ... and inserts it
    | TakeListenId(key: Key) // tunnel_listen takes an id
    | List(id: Id)           // ... registers the listener
    | InsertListen(id: Id)   // ... and inserts the tunnel entry
    | Close(id: Id)          // tunnel_close removes the entry
    | Unlist(id: Id)         // ... and the listeners with that id
    | Finish(id: Id)         // a relay ends and removes its id, if still there, from the tunnel map

  function Initial(): World {
    World(1, [], {}, map[], map[], map[], map[], {}, {})
  }

  predicate Enabled(w: World, e: Event) {
    match e
    case TakeId => true
    case Insert(id) => id in w.opening
    case TakeListenId(_) => true
    case List(id) => id in w.listening
    case InsertListen(id) => id in w.listed
    case Close(id) => id in w.tunnels
    case Unlist(id) => id in w.closing
    case Finish(id) => id in w.tunnels ==> w.tunnels[id].Forward?
  }

  /** `fetch_add` on the 32-bit counter. */
  function Next(w: World): World {
    w.(counter := (w.counter + 1) % WRAP, issued := w.issued + [w.counter])
  }

  function Step(w: World, e: Event): World
    requires Enabled(w, e)
  {
    match e
    case TakeId => Next(w).(opening := w.opening + {w.counter})
    case Insert(id) => w.(opening := w.opening - {id}, tunnels := w.tunnels[id := Forward])
    case TakeListenId(key) => Next(w).(listening := w.listening[w.counter := key])
    case List(id) =>
      w.(listening := w.listening - {id}, listed := w.listed[id := w.listening[id]],
         listeners := w.listeners[w.listening[id] := id])
    case InsertListen(id) => w.(listed := w.listed - {id}, tunnels := w.tunnels[id := Reverse(w.listed[id])])
    case Close(id) =>
      w.(tunnels := w.tunnels - {id}, retired := w.retired + {id},
         closing := if w.tunnels[id].Reverse? then w.closing + {id} else w.closing)
    case Unlist(id) =>
      w.(closing := w.closing - {id},
         listeners := map k | k in w.listeners && w.listeners[k] != id :: w.listeners[k])
    case Finish(id) =>
      if id in w.tunnels then w.(tunnels := w.tunnels - {id}, retired := w.retired + {id}) else w
  }

  // ----- Ids -----

  /** The k-th id handed out, counting from 0. */
  function IdAt(k: nat): Id {
    (1 + k) % WRAP
  }

  /** Ids repeat exactly when the counter has gone all the way round. */
  lemma IdsDistinctIffNoWrap(n: nat)
    ensures (forall i, j :: 0 <= i < j < n ==> IdAt(i) != IdAt(j)) <==> n <= WRAP
  {
    if n <= WRAP {
      forall i: nat, j: nat | i < j < n ensures IdAt(i) != IdAt(j) {
        if j == WRAP - 1 {
          assert IdAt(j) == 0;
        }
      }
    } else {
      assert IdAt(0) == IdAt(WRAP);
    }
  }

  /** Where an id that was handed out is: being opened, being listened for, listed, in the
      map, or retired, and never in two of these places. */
  ghost predicate InOnePlace(w: World, id: Id) {
    && (id in w.opening ==> id !in w.listening && id !in w.listed && id !in w.tunnels && id !in w.retired)
    && (id in w.listening ==> id !in w.listed && id !in w.tunnels && id !in w.retired)
    && (id in w.listed ==> id !in w.tunnels && id !in w.retired)
    && (id in w.tunnels ==> id !in w.retired)
    && (id in w.closing ==> id in w.retired)
    && (id in w.issued <==> id in w.opening || id in w.listening || id in w.listed || id in w.tunnels || id in w.retired)
  }

  /** A listener's id belongs to a tunnel_listen about to insert it, to a registered reverse
      tunnel for the same address, or to a tunnel_close about to drop the listener. */
  ghost predicate ListenerBacked(w: World, key: Key) {
    key in w.listeners ==>
      var id := w.listeners[key];
      (id in w.listed && w.listed[id] == key) || (id in w.tunnels && w.tunnels[id] == Reverse(key)) || id in w.closing
  }

  /** The counter and the ids handed out, also after the counter has wrapped. */
  ghost predicate Counted(w: World) {
    w.counter == IdAt(|w.issued|) && forall k :: 0 <= k < |w.issued| ==> w.issued[k] == IdAt(k)
  }

  ghost predicate Inv(w: World) {
    && Counted(w)
    && (forall id :: InOnePlace(w, id))
    && (forall key :: ListenerBacked(w, key))
  }

  predicate NoWrap(w: World) {
    |w.issued| <= WRAP
  }

  lemma FreshId(w: World)
    requires Inv(w) && |w.issued| < WRAP
    ensures w.counter !in w.issued
  {
    IdsDistinctIffNoWrap(|w.issued| + 1);
  }

  lemma PlacedStep(w: World, e: Event, id: Id)
    requires Inv(w) && Enabled(w, e) && NoWrap(Step(w, e))
    ensures InOnePlace(Step(w, e), id)
  {
    hide ListenerBacked, IdAt;
    assert InOnePlace(w, id);
    if e.TakeId? || e.TakeListenId? {
      FreshId(w);
    }
  }

  lemma CountedStep(w: World, e: Event)
    requires Counted(w) && Enabled(w, e)
    ensures Counted(Step(w, e))
  {
  }

  lemma StepKeepsInv(w: World, e: Event)
    requires Inv(w) && Enabled(w, e) && NoWrap(Step(w, e))
    ensures Inv(Step(w, e))
  {
    hide InOnePlace, ListenerBacked, IdAt, Step, Enabled, Counted;
    CountedStep(w, e);
    forall id ensures InOnePlace(Step(w, e), id) {
      PlacedStep(w, e, id);
    }
    forall key ensures ListenerBacked(Step(w, e), key) {
      BackedStep(w, e, key);
    }
  }

  lemma BackedStep(w: World, e: Event, key: Key)
    requires Inv(w) && Enabled(w, e) && NoWrap(Step(w, e))
    ensures ListenerBacked(Step(w, e), key)
  {
    assert ListenerBacked(w, key);
    if key in w.listeners {
      assert InOnePlace(w, w.listeners[key]);
    }
    match e
    case TakeId => FreshId(w);
    case TakeListenId(_) => FreshId(w);
    case Insert(id) => assert InOnePlace(w, id);
    case List(id) => assert InOnePlace(w, id);
    case InsertListen(id) => assert InOnePlace(w, id);
    case _ =>
  }

  // ----- Whole runs -----

  ghost predicate Legal(w: World, run: seq<Event>)
    decreases |run|
  {
    run == [] || (Enabled(w, run[0]) && Legal(Step(w, run[0]), run[1..]))
  }

  function Run(w: World, run: seq<Event>): World
    requires Legal(w, run)
    decreases |run|
  {
    if run == [] then w else Run(Step(w, run[0]), run[1..])
  }

  lemma {:induction false} IssuedGrows(w: World, run: seq<Event>)
    requires Legal(w, run)
    ensures |w.issued| <= |Run(w, run).issued| && w.retired <= Run(w, run).retired
    decreases |run|
  {
    if run == [] {
    } else {
      IssuedGrows(Step(w, run[0]), run[1..]);
    }
  }

  lemma {:induction false} RunCounts(w: World, run: seq<Event>)
    requires Counted(w) && Legal(w, run)
    ensures Counted(Run(w, run))
    decreases |run|
  {
    hide Counted, Step, Enabled;
    if run == [] {
    } else {
      CountedStep(w, run[0]);
      RunCounts(Step(w, run[0]), run[1..]);
    }
  }

  /** In every run, the ids handed out are distinct if and only if there are at most 2^32. */
  lemma IssuedDistinctIff(run: seq<Event>)
    requires Legal(Initial(), run)
    ensures var ids := Run(Initial(), run).issued;
            (forall i, j :: 0 <= i < j < |ids| ==> ids[i] != ids[j]) <==> |ids| <= 0x1_0000_0000
  {
    RunCounts(Initial(), run);
    hide Run, Legal, IdAt;
    var ids := Run(Initial(), run).issued;
    IdsDistinctIffNoWrap(|ids|);
    if i, j :| 0 <= i < j < |ids| && IdAt(i) == IdAt(j) {
      assert ids[i] == ids[j];
    }
  }

  lemma {:induction false} RunKeepsInv(w: World, run: seq<Event>)
    requires Inv(w) && Legal(w, run) && NoWrap(Run(w, run))
    ensures Inv(Run(w, run))
    decreases |run|
  {
    if run == [] {
    } else {
      IssuedGrows(Step(w, run[0]), run[1..]);
      StepKeepsInv(w, run[0]);
      RunKeepsInv(Step(w, run[0]), run[1..]);
    }
  }

  lemma InitialInv()
    ensures Inv(Initial())
  {
  }

  /** Between operations, every listener's id is that of a reverse tunnel registered for the
      listener's own address. */
  lemma ListenersAreRegistered(run: seq<Event>)
    requires Legal(Initial(), run) && NoWrap(Run(Initial(), run))
    ensures var w := Run(Initial(), run);
            w.listed == map[] && w.closing == {} ==>
              forall key :: key in w.listeners ==>
                w.listeners[key] in w.tunnels && w.tunnels[w.listeners[key]] == Reverse(key)
  {
    hide Run, Legal;
    InitialInv();
    RunKeepsInv(Initial(), run);
    var w := Run(Initial(), run);
    if w.listed == map[] && w.closing == {} {
      forall key | key in w.listeners ensures w.listeners[key] in w.tunnels && w.tunnels[w.listeners[key]] == Reverse(key) {
        assert ListenerBacked(w, key);
      }
    }
  }

  /** Until the counter wraps, an id that has been closed, or whose relay has removed it, is
      never in the map again: a later `tunnel_write` or `tunnel_close` on it fails. */
  lemma RetiredStaysOut(past: seq<Event>, future: seq<Event>, id: Id)
    requires Legal(Initial(), past) && Legal(Run(Initial(), past), future)
    requires NoWrap(Run(Run(Initial(), past), future))
    requires id in Run(Initial(), past).retired
    ensures id !in Run(Run(Initial(), past), future).tunnels
  {
    hide Run, Legal;
    var w := Run(Initial(), past);
    IssuedGrows(w, future);
    InitialInv();
    RunKeepsInv(Initial(), past);
    RunKeepsInv(w, future);
    assert InOnePlace(Run(w, future), id);
  }

  // ----- Which tunnels the map holds -----

  predicate Inserts(e: Event, id: Id) {
    e == Insert(id) || e == InsertListen(id)
  }

  predicate TakesOut(e: Event, id: Id) {
    e == Close(id) || e == Finish(id)
  }

  ghost predicate Untouched(run: seq<Event>, id: Id) {
    forall i :: 0 <= i < |run| ==> !TakesOut(run[i], id)
  }

  /** Inserted in some step and neither closed nor finished since. */
  ghost predicate InsertedAndKept(run: seq<Event>, id: Id) {
    exists k :: 0 <= k < |run| && Inserts(run[k], id) && Untouched(run[k + 1..], id)
  }

  /** In every run, also past a wrap, the map holds a tunnel iff it was inserted and has been
      neither closed nor ended by its relay since. */
  lemma TunnelsAreThoseKept(run: seq<Event>, id: Id)
    requires Legal(Initial(), run)
    ensures id in Run(Initial(), run).tunnels <==> InsertedAndKept(run, id)
  {
    KeptFrom(Initial(), run, id);
  }

  lemma {:induction false} KeptFrom(w: World, run: seq<Event>, id: Id)
    requires Legal(w, run)
    ensures id in Run(w, run).tunnels <==> InsertedAndKept(run, id) || (id in w.tunnels && Untouched(run, id))
    decreases |run|
  {
    hide Untouched, InsertedAndKept;
    if run == [] {
      NothingKept(id);
    } else {
      KeptFrom(Step(w, run[0]), run[1..], id);
      KeptFirst(run, id);
    }
  }

  lemma NothingKept(id: Id)
    ensures !InsertedAndKept([], id) && Untouched([], id)
  {
  }

  lemma KeptFirst(run: seq<Event>, id: Id)
    requires run != []
    ensures Untouched(run, id) <==> !TakesOut(run[0], id) && Untouched(run[1..], id)
    ensures InsertedAndKept(run, id) <==>
              InsertedAndKept(run[1..], id) || (Inserts(run[0], id) && Untouched(run[1..], id))
  {
    var rest := run[1..];
    assert run == [run[0]] + rest;
    if k :| 0 <= k < |run| && Inserts(run[k], id) && Untouched(run[k + 1..], id) {
      if k > 0 {
        assert Inserts(rest[k - 1], id) && rest[k - 1 + 1..] == run[k + 1..];
      }
    }
    if k :| 0 <= k < |rest| && Inserts(rest[k], id) && Untouched(rest[k + 1..], id) {
      assert Inserts(run[k + 1], id) && run[k + 1 + 1..] == rest[k + 1..];
    }
  }

  /** A listener for `key` is registered at position `k`. */
  ghost predicate Relists(w: World, run: seq<Event>, k: nat, key: Key)
    requires Legal(w, run)
  {
    && k < |run| && run[k].List? && Legal(w, run[..k])
    && run[k].id in Run(w, run[..k]).listening && Run(w, run[..k]).listening[run[k].id] == key
  }

  /** The listener for `key` is that of tunnel `id`, which is in the map or about to be. */
  ghost predicate Listens(w: World, id: Id, key: Key) {
    && key in w.listeners && w.listeners[key] == id
    && ((id in w.listed && w.listed[id] == key) || (id in w.tunnels && w.tunnels[id] == Reverse(key)))
  }

  /** A reverse tunnel keeps its listener until it is closed or another one is registered
      under the same key: no other operation takes it away. */
  lemma {:induction false} ListenerStays(w: World, run: seq<Event>, id: Id, key: Key)
    requires Inv(w) && Legal(w, run) && NoWrap(Run(w, run))
    requires Listens(w, id, key)
    requires forall k :: 0 <= k < |run| ==> run[k] != Close(id) && !Relists(w, run, k, key)
    ensures Listens(Run(w, run), id, key)
    decreases |run|
  {
    hide Inv, Listens;
    if run == [] {
    } else {
      var w', rest := Step(w, run[0]), run[1..];
      IssuedGrows(w', rest);
      StepKeepsInv(w, run[0]);
      if run[0].List? {
        assert run[..0] == [];
        assert !Relists(w, run, 0, key);
      }
      StaysOneStep(w, run[0], id, key);
      forall k | 0 <= k < |rest| ensures rest[k] != Close(id) && !Relists(w', rest, k, key) {
        assert run[k + 1] == rest[k] && run[..k + 1][0] == run[0] && run[..k + 1][1..] == rest[..k];
        assert run[k + 1] != Close(id) && !Relists(w, run, k + 1, key);
      }
      ListenerStays(w', rest, id, key);
    }
  }

  lemma StaysOneStep(w: World, e: Event, id: Id, key: Key)
    requires Inv(w) && Enabled(w, e) && NoWrap(Step(w, e)) && e != Close(id)
    requires Listens(w, id, key)
    requires e.List? ==> w.listening[e.id] != key
    ensures Listens(Step(w, e), id, key)
  {
    hide ListenerBacked;
    assert InOnePlace(w, id);
  }

  // ----- Whole operations -----

  /** Opening a tunnel and closing it again, or the end of its relay, leaves both maps as they
      were. */
  lemma OpenCloseUndone(w: World, last: Event)
    requires Inv(w) && |w.issued| < WRAP && TakesOut(last, w.counter)
    ensures var id := w.counter;
            var run := [TakeId, Insert(id), last];
            && Legal(w, run)
            && Run(w, run).tunnels == w.tunnels && Run(w, run).listeners == w.listeners
            && id in Run(w, run).retired
  {
    hide Legal, Run, ListenerBacked;
    var id := w.counter;
    FreshId(w);
    NotListed(w, id);
    var w1 := Step(w, TakeId);
    var w2 := Step(w1, Insert(id));
    var w3 := Step(w2, last);
    RunCons(w2, last, []);
    RunCons(w1, Insert(id), [last]);
    RunCons(w, TakeId, [Insert(id), last]);
    RunNothing(w3);
    assert [last] + [] == [last];
    assert [Insert(id)] + [last] == [Insert(id), last];
    assert [TakeId] + [Insert(id), last] == [TakeId, Insert(id), last];
    assert w3.tunnels == w.tunnels;
  }

  /** Listening and closing again takes the new listener out of both maps. A listener already
      registered under the same key is gone too: the new one replaced it. */
  lemma ListenCloseUndone(w: World, key: Key)
    requires Inv(w) && |w.issued| < WRAP
    ensures var id := w.counter;
            var run := [TakeListenId(key), List(id), InsertListen(id), Close(id), Unlist(id)];
            && Legal(w, run)
            && Run(w, run).tunnels == w.tunnels
            && Run(w, run).listeners == w.listeners - {key}
            && Run(w, run).listed == w.listed && Run(w, run).closing == w.closing
  {
    hide Legal, Run, Inv, Enabled, Step;
    var id := w.counter;
    var w1, w2, w3, w4, w5 := ListenCloseStates(w, key);
    RunCons(w4, Unlist(id), []);
    RunCons(w3, Close(id), [Unlist(id)]);
    RunCons(w2, InsertListen(id), [Close(id), Unlist(id)]);
    RunCons(w1, List(id), [InsertListen(id), Close(id), Unlist(id)]);
    RunCons(w, TakeListenId(key), [List(id), InsertListen(id), Close(id), Unlist(id)]);
    RunNothing(w5);
    assert [Unlist(id)] + [] == [Unlist(id)];
    assert [Close(id)] + [Unlist(id)] == [Close(id), Unlist(id)];
    assert [InsertListen(id)] + [Close(id), Unlist(id)] == [InsertListen(id), Close(id), Unlist(id)];
    assert [List(id)] + [InsertListen(id), Close(id), Unlist(id)] == [List(id), InsertListen(id), Close(id), Unlist(id)];
    assert [TakeListenId(key)] + [List(id), InsertListen(id), Close(id), Unlist(id)]
        == [TakeListenId(key), List(id), InsertListen(id), Close(id), Unlist(id)];
  }

  lemma ListenCloseStates(w: World, key: Key) returns (w1: World, w2: World, w3: World, w4: World, w5: World)
    requires Inv(w) && |w.issued| < WRAP
    ensures Enabled(w, TakeListenId(key)) && w1 == Step(w, TakeListenId(key))
    ensures Enabled(w1, List(w.counter)) && w2 == Step(w1, List(w.counter))
    ensures Enabled(w2, InsertListen(w.counter)) && w3 == Step(w2, InsertListen(w.counter))
    ensures Enabled(w3, Close(w.counter)) && w4 == Step(w3, Close(w.counter))
    ensures Enabled(w4, Unlist(w.counter)) && w5 == Step(w4, Unlist(w.counter))
    ensures w5.tunnels == w.tunnels && w5.listeners == w.listeners - {key}
    ensures w5.listed == w.listed && w5.closing == w.closing
  {
    hide ListenerBacked;
    var id := w.counter;
    FreshId(w);
    NotListed(w, id);
    w1 := Step(w, TakeListenId(key));
    w2 := Step(w1, List(id));
    w3 := Step(w2, InsertListen(id));
    w4 := Step(w3, Close(id));
    w5 := Step(w4, Unlist(id));
    assert w5.tunnels == w.tunnels;
    assert w5.listeners == w.listeners - {key};
    assert w5.listed == w.listed;
  }

  /** An id not handed out yet stands nowhere. */
  lemma NotListed(w: World, id: Id)
    requires Inv(w) && id !in w.issued
    ensures id !in w.tunnels && id !in w.listening && id !in w.listed && id !in w.closing && id !in w.opening
    ensures forall k :: k in w.listeners ==> w.listeners[k] != id
  {
    assert InOnePlace(w, id);
    forall k | k in w.listeners ensures w.listeners[k] != id {
      assert ListenerBacked(w, k);
    }
  }

  lemma RunCons(w: World, e: Event, rest: seq<Event>)
    requires Enabled(w, e)
    ensures Legal(w, [e] + rest) <==> Legal(Step(w, e), rest)
    ensures Legal(w, [e] + rest) ==> Run(w, [e] + rest) == Run(Step(w, e), rest)
  {
    assert ([e] + rest)[1..] == rest;
  }

  lemma RunNothing(w: World)
    ensures Legal(w, []) && Run(w, []) == w
  {
  }

  // ----- The port of a listener -----

  /** The key a listener is registered under: the port the server assigned, or the requested
      one when the server did not name any. RFC 4254, section 7.1, lets the server leave
      the port out exactly when a particular port was asked for. */
  function ActualPort(requested: nat, replied: nat): nat {
    if replied == 0 && requested != 0 then requested else replied
  }

  /** What a server following that section listens on and what it replies. */
  datatype ForwardReply = ForwardReply(bound: nat, replied: nat)

  predicate Conforms(requested: nat, r: ForwardReply) {
    if requested == 0 then r.bound != 0 && r.replied == r.bound
    else r.bound == requested && (r.replied == 0 || r.replied == r.bound)
  }

  /** The listener is registered under the port the server will report connections for if and
      only if the server names that port, or names none and has bound the one asked for. A
      server that follows the section does. */
  lemma ListenerKeyIsBoundPort(requested: nat, r: ForwardReply)
    ensures ActualPort(requested, r.replied) == r.bound <==>
              (r.replied != 0 && r.replied == r.bound) || (r.replied == 0 && r.bound == requested)
    ensures Conforms(requested, r) ==> ActualPort(requested, r.replied) == r.bound
  {
  }
}
