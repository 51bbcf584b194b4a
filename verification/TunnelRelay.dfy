/** One SSH tunnel as a step system: the client's `tunnel_write` and `tunnel_close`, the
    task that writes to the SSH channel, and the task that reads from it and selects
    between the two. Every interleaving of their steps is a run. */
module TunnelRelay {
  type Byte = b: int | 0 <= b < 256

  const TUNNEL_CHANNEL_CAPACITY := 1024
  const TUNNEL_RELAY_BUFFER_SIZE := 8192

  datatype Message = TunnelData(data: seq<Byte>) | TunnelClosed

  /** The write task: running, ended because the queue was closed and drained, ended by a
      write error, or cancelled by the abort. */
  datatype Writer = Running | Drained | Failed | Cancelled

  /** Where the relay task is: selecting, about to announce the end, about to leave the
      map, gone. */
  datatype Phase = Selecting | Closing | Leaving | Gone

  /** The tunnel's entry in the map, which owns the sending half of the queue: not inserted
      yet (the opener still holds the sender), present, or removed (the sender is dropped). */
  datatype Slot = Pending | Present | Removed

  datatype Relay = Relay(
    entry: Slot,
    queue: seq<seq<Byte>>, inFlight: seq<Byte>, busy: bool,
    writer: Writer, aborted: bool,
    phase: Phase,
    emitted: seq<Message>,  // what the client was sent
    accepted: seq<Byte>,    // what successful `tunnel_write` calls handed over
    written: seq<Byte>,     // what reached the SSH channel
    read: seq<Byte>,        // what came out of the SSH channel
    lost: bool)             // some message could not be sent

  datatype Event =
    | Insert                              // the opener puts the entry into the map
    | Write(data: seq<Byte>)              // tunnel_write
    | Close                               // tunnel_close
    | Take                                // the writer receives the next chunk
    | Put(n: nat)                         // ... and gets n of its bytes out
    | PutDone                             // ... until none is left
    | PutFails                            // ... or the channel reports an error
    | Drain                               // the queue is empty and closed
    | Cancel                              // the abort reaches the writer
    | Read(data: seq<Byte>, sent: bool)   // a read; `sent`: the client could be told
    | ReadEnds                            // end of stream or read error
    | SelectWriter                        // select! sees the write task finished
    | Announce(sent: bool)                // TunnelClosed
    | Leave                               // the relay removes the entry

  function Initial(): Relay {
    Relay(Pending, [], [], false, Running, false, Selecting, [], [], [], [], false)
  }

  /** `try_send` succeeds: the receiver exists and the queue has room. */
  predicate Accepts(r: Relay) {
    r.writer.Running? && |r.queue| < TUNNEL_CHANNEL_CAPACITY
  }

  predicate Enabled(r: Relay, e: Event) {
    match e
    case Insert => r.entry.Pending?
    case Write(_) => r.entry.Present?
    case Close => r.entry.Present?
    case Take => r.writer.Running? && !r.busy && r.queue != []
    case Put(n) => r.writer.Running? && r.busy && n <= |r.inFlight|
    case PutDone => r.writer.Running? && r.busy && r.inFlight == []
    case PutFails => r.writer.Running? && r.busy
    case Drain => r.writer.Running? && !r.busy && r.queue == [] && r.entry.Removed?
    case Cancel => r.writer.Running? && r.aborted
    case Read(data, _) => r.phase.Selecting? && 0 < |data| <= TUNNEL_RELAY_BUFFER_SIZE
    case ReadEnds => r.phase.Selecting?
    case SelectWriter => r.phase.Selecting? && !r.writer.Running?
    case Announce(_) => r.phase.Closing?
    case Leave => r.phase.Leaving?
  }

  function Step(r: Relay, e: Event): Relay
    requires Enabled(r, e)
  {
    match e
    case Insert => r.(entry := Present)
    case Write(data) =>
      if Accepts(r) then r.(queue := r.queue + [data], accepted := r.accepted + data) else r
    case Close => r.(entry := Removed)
    case Take => r.(queue := r.queue[1..], inFlight := r.queue[0], busy := true)
    case Put(n) => r.(inFlight := r.inFlight[n..], written := r.written + r.inFlight[..n])
    case PutDone => r.(busy := false)
    case PutFails => r.(writer := Failed)
    case Drain => r.(writer := Drained)
    case Cancel => r.(writer := Cancelled)
    case Read(data, sent) =>
      if sent then r.(read := r.read + data, emitted := r.emitted + [TunnelData(data)])
      else r.(read := r.read + data, aborted := true, phase := Closing, lost := true)
    case ReadEnds => r.(aborted := true, phase := Closing)
    case SelectWriter => r.(phase := Closing)
    case Announce(sent) =>
      if sent then r.(phase := Leaving, emitted := r.emitted + [TunnelClosed])
      else r.(phase := Leaving, lost := true)
    case Leave =>
      r.(phase := Gone, entry := if r.entry.Present? then Removed else r.entry)
  }

  // ----- Invariants -----

  function Flatten(chunks: seq<seq<Byte>>): seq<Byte> {
    if chunks == [] then [] else chunks[0] + Flatten(chunks[1..])
  }

  lemma {:induction false} FlattenAppend(chunks: seq<seq<Byte>>, c: seq<Byte>)
    ensures Flatten(chunks + [c]) == Flatten(chunks) + c
  {
    if chunks == [] {
      assert chunks + [c] == [c];
    } else {
      assert (chunks + [c])[1..] == chunks[1..] + [c];
      FlattenAppend(chunks[1..], c);
    }
  }

  /** The data carried by a list of messages. */
  function DataOf(ms: seq<Message>): seq<Byte> {
    if ms == [] then []
    else (if ms[0].TunnelData? then ms[0].data else []) + DataOf(ms[1..])
  }

  lemma {:induction false} DataOfAppend(ms: seq<Message>, m: Message)
    ensures DataOf(ms + [m]) == DataOf(ms) + if m.TunnelData? then m.data else []
  {
    if ms == [] {
      assert ms + [m] == [m] && [m][1..] == [];
    } else {
      assert (ms + [m])[1..] == ms[1..] + [m];
      DataOfAppend(ms[1..], m);
      var first, rest, last := if ms[0].TunnelData? then ms[0].data else [], DataOf(ms[1..]), if m.TunnelData? then m.data else [];
      assert first + (rest + last) == (first + rest) + last;
    }
  }

  ghost predicate OnlyData(ms: seq<Message>) {
    forall k :: 0 <= k < |ms| ==> ms[k].TunnelData?
  }

  /** `TunnelData`*, then exactly one `TunnelClosed`. */
  ghost predicate Ended(ms: seq<Message>) {
    ms != [] && OnlyData(ms[..|ms| - 1]) && ms[|ms| - 1].TunnelClosed?
  }

  /** Only data until the relay announces its end; from then on the announcement is the last
      message, unless it could not be sent. */
  ghost predicate TraceShape(r: Relay) {
    if r.phase.Selecting? || r.phase.Closing? then OnlyData(r.emitted)
    else Ended(r.emitted) || (r.lost && OnlyData(r.emitted))
  }

  /** No byte accepted from the client is lost, doubled or reordered: it is written, in the
      writer's hand, or queued, in this order. */
  ghost predicate WritesConserved(r: Relay) {
    r.accepted == r.written + (if r.busy then r.inFlight else []) + Flatten(r.queue)
  }

  /** The client has been sent the bytes read, up to one chunk it could not be sent. */
  ghost predicate ReadsForwarded(r: Relay) {
    && DataOf(r.emitted) <= r.read
    && (!r.aborted ==> DataOf(r.emitted) == r.read)
  }

  /** Why the relay ended, and what a drained writer has done. */
  ghost predicate EndReasons(r: Relay) {
    && (r.writer.Drained? ==> r.entry.Removed? && !r.busy && r.queue == [])
    && (r.writer.Cancelled? ==> r.aborted)
    && (!r.phase.Selecting? ==> r.aborted || !r.writer.Running?)
    && (r.phase.Selecting? ==> !r.aborted)
    && |r.queue| <= TUNNEL_CHANNEL_CAPACITY
  }

  ghost predicate Inv(r: Relay) {
    TraceShape(r) && WritesConserved(r) && ReadsForwarded(r) && EndReasons(r)
  }

  lemma StepKeepsInv(r: Relay, e: Event)
    requires Inv(r) && Enabled(r, e)
    ensures Inv(Step(r, e))
  {
    KeepsTrace(r, e);
    KeepsWrites(r, e);
    KeepsReads(r, e);
  }

  lemma KeepsTrace(r: Relay, e: Event)
    requires TraceShape(r) && Enabled(r, e)
    ensures TraceShape(Step(r, e))
  {
    if e.Announce? && e.sent {
      assert (r.emitted + [TunnelClosed])[..|r.emitted|] == r.emitted;
    }
  }

  lemma KeepsWrites(r: Relay, e: Event)
    requires WritesConserved(r) && Enabled(r, e)
    ensures WritesConserved(Step(r, e))
  {
    match e
    case Write(data) =>
      FlattenAppend(r.queue, data);
    case Take =>
      FlattenFirst(r.queue);
    case Put(n) =>
      hide Flatten;
      Moved(r.written, r.inFlight, n, Flatten(r.queue));
    case _ =>
  }

  lemma FlattenFirst(chunks: seq<seq<Byte>>)
    requires chunks != []
    ensures Flatten(chunks) == chunks[0] + Flatten(chunks[1..])
  {
  }

  lemma Moved(written: seq<Byte>, chunk: seq<Byte>, n: nat, rest: seq<Byte>)
    requires n <= |chunk|
    ensures written + chunk + rest == (written + chunk[..n]) + chunk[n..] + rest
  {
    assert chunk == chunk[..n] + chunk[n..];
  }

  lemma KeepsReads(r: Relay, e: Event)
    requires ReadsForwarded(r) && EndReasons(r) && Enabled(r, e)
    ensures ReadsForwarded(Step(r, e))
  {
    match e
    case Read(data, sent) =>
      DataOfAppend(r.emitted, TunnelData(data));
    case Announce(sent) =>
      DataOfAppend(r.emitted, TunnelClosed);
    case _ =>
  }

  // ----- Whole runs -----

  ghost predicate Legal(r: Relay, run: seq<Event>)
    decreases |run|
  {
    run == [] || (Enabled(r, run[0]) && Legal(Step(r, run[0]), run[1..]))
  }

  function Run(r: Relay, run: seq<Event>): Relay
    requires Legal(r, run)
    decreases |run|
  {
    if run == [] then r else Run(Step(r, run[0]), run[1..])
  }

  lemma {:induction false} RunKeepsInv(r: Relay, run: seq<Event>)
    requires Inv(r) && Legal(r, run)
    ensures Inv(Run(r, run))
    decreases |run|
  {
    if run == [] {
    } else {
      StepKeepsInv(r, run[0]);
      RunKeepsInv(Step(r, run[0]), run[1..]);
    }
  }

  /** In every interleaving: the messages are `TunnelData`* then at most one `TunnelClosed`,
      exactly one once the relay has left if the client could be reached; their data is a
      prefix of what was read; what was written is a prefix of what `tunnel_write` accepted. */
  lemma EveryTrace(run: seq<Event>)
    requires Legal(Initial(), run)
    ensures var r := Run(Initial(), run);
            && (OnlyData(r.emitted) || Ended(r.emitted))
            && ((r.phase.Leaving? || r.phase.Gone?) && !r.lost ==> Ended(r.emitted))
            && DataOf(r.emitted) <= r.read
            && r.written <= r.accepted
  {
    hide Run, Legal;
    InitialInv();
    RunKeepsInv(Initial(), run);
    var r := Run(Initial(), run);
    assert r.accepted == r.written + ((if r.busy then r.inFlight else []) + Flatten(r.queue));
  }

  lemma InitialInv()
    ensures Inv(Initial())
  {
  }

  /** When the relay's end was brought about neither by a write error nor by the reading
      side, the tunnel was closed by its client, and before the end is announced everything
      accepted has been written and everything read has been sent. */
  lemma GracefulCloseWritesAll(run: seq<Event>)
    requires Legal(Initial(), run)
    ensures var r := Run(Initial(), run);
            !r.phase.Selecting? && !r.writer.Failed? && !r.aborted ==>
              r.entry.Removed? && r.written == r.accepted && DataOf(r.emitted) == r.read
  {
    hide Run, Legal;
    InitialInv();
    RunKeepsInv(Initial(), run);
  }

  lemma RunCons(r: Relay, e: Event, rest: seq<Event>)
    requires Enabled(r, e)
    ensures Legal(r, [e] + rest) <==> Legal(Step(r, e), rest)
    ensures Legal(r, [e] + rest) ==> Run(r, [e] + rest) == Run(Step(r, e), rest)
  {
    assert ([e] + rest)[1..] == rest;
  }

  /** After the entry is in the map and the relay has left, or the client has closed the
      tunnel, the entry is gone for good. */
  lemma {:induction false} RemovedIsFinal(r: Relay, run: seq<Event>)
    requires Legal(r, run) && r.entry.Removed?
    ensures Run(r, run).entry.Removed? && Run(r, run).accepted == r.accepted
    decreases |run|
  {
    if run == [] {
    } else {
      RemovedIsFinal(Step(r, run[0]), run[1..]);
    }
  }

  // ----- What a run leaves behind -----

  /** What a step that reaches the client says. */
  function SentBy(e: Event): seq<Message> {
    match e
    case Read(data, true) => [TunnelData(data)]
    case Announce(true) => [TunnelClosed]
    case _ => []
  }

  function Sent(run: seq<Event>): seq<Message> {
    if run == [] then [] else SentBy(run[0]) + Sent(run[1..])
  }

  /** The data of the reads of a run, sent on or not. */
  function Reads(run: seq<Event>): seq<seq<Byte>> {
    if run == [] then []
    else (if run[0].Read? then [run[0].data] else []) + Reads(run[1..])
  }

  predicate Unsent(e: Event) {
    (e.Read? || e.Announce?) && !e.sent
  }

  /** The reading side gives up: at the end of its input or when it cannot reach the client. */
  predicate EndsReading(e: Event) {
    e.ReadEnds? || (e.Read? && !e.sent)
  }

  ghost predicate Occurs(run: seq<Event>, p: Event -> bool) {
    exists i :: 0 <= i < |run| && p(run[i])
  }

  /** In every interleaving the client has been sent exactly what the relay's steps sent, and
      how the tasks stand follows from what has happened to them. */
  lemma TraceOfRun(run: seq<Event>)
    requires Legal(Initial(), run)
    ensures var r := Run(Initial(), run);
            && r.emitted == Sent(run) && r.read == Flatten(Reads(run))
            && (r.lost <==> Occurs(run, Unsent)) && (r.aborted <==> Occurs(run, EndsReading))
            && (r.writer.Failed? <==> PutFails in run) && (r.writer.Drained? <==> Drain in run)
            && (r.writer.Cancelled? <==> Cancel in run)
  {
    SentFrom(Initial(), run);
    ReadFrom(Initial(), run);
    FlagsFrom(Initial(), run);
    WriterFrom(Initial(), run);
  }

  lemma {:induction false} SentFrom(r: Relay, run: seq<Event>)
    requires Legal(r, run)
    ensures Run(r, run).emitted == r.emitted + Sent(run)
    decreases |run|
  {
    if run == [] {
    } else {
      hide Enabled, Step, SentBy;
      SentFrom(Step(r, run[0]), run[1..]);
      TraceStep(r, run[0]);
      assert (r.emitted + SentBy(run[0])) + Sent(run[1..]) == r.emitted + (SentBy(run[0]) + Sent(run[1..]));
    }
  }

  lemma {:induction false} ReadFrom(r: Relay, run: seq<Event>)
    requires Legal(r, run)
    ensures Run(r, run).read == r.read + Flatten(Reads(run))
    decreases |run|
  {
    if run == [] {
      NothingRead();
    } else {
      hide Enabled, Step, Flatten, Reads;
      var first, rest := if run[0].Read? then run[0].data else [], Flatten(Reads(run[1..]));
      ReadFrom(Step(r, run[0]), run[1..]);
      TraceStep(r, run[0]);
      ReadsFirst(run);
      assert (r.read + first) + rest == r.read + (first + rest);
    }
  }

  lemma NothingRead()
    ensures Flatten(Reads([])) == []
  {
  }

  lemma ReadsFirst(run: seq<Event>)
    requires run != []
    ensures Flatten(Reads(run)) == (if run[0].Read? then run[0].data else []) + Flatten(Reads(run[1..]))
  {
    if run[0].Read? {
      FlattenMore(run[0].data, Reads(run[1..]));
    } else {
      assert Reads(run) == Reads(run[1..]);
    }
  }

  lemma {:induction false} FlagsFrom(r: Relay, run: seq<Event>)
    requires Legal(r, run)
    ensures Run(r, run).lost <==> r.lost || Occurs(run, Unsent)
    ensures Run(r, run).aborted <==> r.aborted || Occurs(run, EndsReading)
    decreases |run|
  {
    if run == [] {
    } else {
      hide Enabled, Step, Occurs, Unsent, EndsReading;
      FlagsFrom(Step(r, run[0]), run[1..]);
      TraceStep(r, run[0]);
      OccursFirst(run, Unsent);
      OccursFirst(run, EndsReading);
    }
  }

  lemma {:induction false} WriterFrom(r: Relay, run: seq<Event>)
    requires Legal(r, run)
    ensures Run(r, run).writer.Failed? <==> r.writer.Failed? || PutFails in run
    ensures Run(r, run).writer.Drained? <==> r.writer.Drained? || Drain in run
    ensures Run(r, run).writer.Cancelled? <==> r.writer.Cancelled? || Cancel in run
    decreases |run|
  {
    if run == [] {
    } else {
      hide Enabled, Step;
      WriterFrom(Step(r, run[0]), run[1..]);
      TraceStep(r, run[0]);
      assert run == [run[0]] + run[1..];
    }
  }

  lemma OccursFirst(run: seq<Event>, p: Event -> bool)
    requires run != []
    ensures Occurs(run, p) <==> p(run[0]) || Occurs(run[1..], p)
  {
    var rest := run[1..];
    assert forall i :: 0 <= i < |rest| ==> rest[i] == run[i + 1];
    if i :| 0 <= i < |rest| && p(rest[i]) {
      assert p(run[i + 1]);
    }
    if i :| 0 <= i < |run| && p(run[i]) {
      assert i > 0 ==> p(rest[i - 1]);
    }
  }

  lemma TraceStep(r: Relay, e: Event)
    requires Enabled(r, e)
    ensures Step(r, e).emitted == r.emitted + SentBy(e)
    ensures Step(r, e).read == r.read + if e.Read? then e.data else []
    ensures Step(r, e).lost == (r.lost || Unsent(e)) && Step(r, e).aborted == (r.aborted || EndsReading(e))
    ensures Step(r, e).writer == match e case PutFails => Failed case Drain => Drained case Cancel => Cancelled case _ => r.writer
    ensures e.PutFails? || e.Drain? || e.Cancel? ==> r.writer.Running?
  {
  }

  /** Whatever ends the relay, an error in the middle of a write included, it tells the client,
      if it can, and takes its entry along in any case. */
  lemma EachEndIsTold(r: Relay, cause: Event, told: bool)
    requires r.phase.Selecting?
    requires if cause.PutFails? then r.writer.Running? && r.busy
             else Enabled(r, cause) && (EndsReading(cause) || cause.Drain?)
    ensures var run := [cause] + (if EndsReading(cause) then [] else [SelectWriter]) + [Announce(told), Leave];
            && Legal(r, run)
            && Run(r, run).phase.Gone? && !Run(r, run).entry.Present?
            && Run(r, run).emitted == r.emitted + if told then [TunnelClosed] else []
  {
    hide Legal, Run, Enabled, Step;
    var r1, r2, r3, r4 := EndSteps(r, cause, told);
    RunNothing(r4);
    RunCons(r3, Leave, []);
    RunCons(r2, Announce(told), [Leave]);
    assert [Leave] + [] == [Leave] && [Announce(told)] + [Leave] == [Announce(told), Leave];
    if EndsReading(cause) {
      RunCons(r, cause, [Announce(told), Leave]);
      assert [cause] + [] + [Announce(told), Leave] == [cause] + [Announce(told), Leave];
    } else {
      RunCons(r1, SelectWriter, [Announce(told), Leave]);
      RunCons(r, cause, [SelectWriter] + [Announce(told), Leave]);
      assert [cause] + [SelectWriter] + [Announce(told), Leave] == [cause] + ([SelectWriter] + [Announce(told), Leave]);
    }
  }

  lemma EndSteps(r: Relay, cause: Event, told: bool) returns (r1: Relay, r2: Relay, r3: Relay, r4: Relay)
    requires r.phase.Selecting?
    requires if cause.PutFails? then r.writer.Running? && r.busy
             else Enabled(r, cause) && (EndsReading(cause) || cause.Drain?)
    ensures Enabled(r, cause) && r1 == Step(r, cause)
    ensures if EndsReading(cause) then r2 == r1 else Enabled(r1, SelectWriter) && r2 == Step(r1, SelectWriter)
    ensures Enabled(r2, Announce(told)) && r3 == Step(r2, Announce(told))
    ensures Enabled(r3, Leave) && r4 == Step(r3, Leave)
    ensures r4.phase.Gone? && !r4.entry.Present? && r4.emitted == r.emitted + if told then [TunnelClosed] else []
  {
    r1 := Step(r, cause);
    r2 := if EndsReading(cause) then r1 else Step(r1, SelectWriter);
    r3 := Step(r2, Announce(told));
    r4 := Step(r3, Leave);
  }

  /** A relay that is reading passes on chunks of every size from 1 to 8192 bytes, each in a
      message of its own ... */
  lemma {:induction false} ReadsPassedOn(r: Relay, chunks: seq<seq<Byte>>)
    requires r.phase.Selecting? && forall k :: 0 <= k < |chunks| ==> 1 <= |chunks[k]| <= 8192
    ensures Legal(r, ReadsOf(chunks)) && Run(r, ReadsOf(chunks)).phase.Selecting?
    ensures Run(r, ReadsOf(chunks)).emitted == r.emitted + OneEach(chunks)
    decreases |chunks|
  {
    if chunks == [] {
      RunNothing(r);
    } else {
      hide Enabled, Step, Legal, Run;
      var e, rest := Read(chunks[0], true), chunks[1..];
      ReadOne(r, chunks[0]);
      ReadsPassedOn(Step(r, e), rest);
      RunCons(r, e, ReadsOf(rest));
      assert (r.emitted + [TunnelData(chunks[0])]) + OneEach(rest) == r.emitted + ([TunnelData(chunks[0])] + OneEach(rest));
    }
  }

  /** A message for each chunk. */
  function OneEach(chunks: seq<seq<Byte>>): seq<Message> {
    if chunks == [] then [] else [TunnelData(chunks[0])] + OneEach(chunks[1..])
  }

  lemma ReadOne(r: Relay, data: seq<Byte>)
    requires r.phase.Selecting? && 1 <= |data| <= 8192
    ensures var e := Read(data, true);
            Enabled(r, e) && Step(r, e).phase.Selecting? && Step(r, e).emitted == r.emitted + [TunnelData(data)]
  {
  }

  function ReadsOf(chunks: seq<seq<Byte>>): seq<Event> {
    if chunks == [] then [] else [Read(chunks[0], true)] + ReadsOf(chunks[1..])
  }

  /** ... and no other size is ever sent. */
  lemma {:induction false} MessageSizes(r: Relay, run: seq<Event>)
    requires Legal(r, run) && forall m :: m in r.emitted && m.TunnelData? ==> 1 <= |m.data| <= 8192
    ensures forall m :: m in Run(r, run).emitted && m.TunnelData? ==> 1 <= |m.data| <= 8192
    decreases |run|
  {
    if run == [] {
    } else {
      MessageSizes(Step(r, run[0]), run[1..]);
    }
  }

  // ----- What is accepted -----

  /** A call takes all of its data or none: all of it exactly when the write task is alive and
      fewer than 1024 chunks wait. Nothing else changes. */
  lemma WriteAcceptedIff(r: Relay, data: seq<Byte>)
    requires Enabled(r, Write(data))
    ensures var r' := Step(r, Write(data));
            if r.writer.Running? && |r.queue| < 1024 then
              && r'.accepted == r.accepted + data && Flatten(r'.queue) == Flatten(r.queue) + data
              && r'.(accepted := r.accepted, queue := r.queue) == r
            else r' == r
  {
    FlattenAppend(r.queue, data);
  }

  /** The data of the calls of `tunnel_write` in a run. */
  function Writes(run: seq<Event>): seq<seq<Byte>> {
    if run == [] then []
    else (if run[0].Write? then [run[0].data] else []) + Writes(run[1..])
  }

  /** A write task that has ended writes nothing more. */
  lemma {:induction false} EndedWriterStays(r: Relay, run: seq<Event>)
    requires Legal(r, run) && !r.writer.Running?
    ensures Run(r, run).writer == r.writer && Run(r, run).written == r.written && Run(r, run).accepted == r.accepted
    decreases |run|
  {
    if run == [] {
    } else {
      EndedWriterStays(Step(r, run[0]), run[1..]);
    }
  }

  /** As long as the write task lives, the first 1024 calls succeed, however slow it is. */
  lemma FirstWritesAccepted(run: seq<Event>)
    requires Legal(Initial(), run) && |Writes(run)| <= 1024 && Run(Initial(), run).writer.Running?
    ensures Run(Initial(), run).accepted == Flatten(Writes(run))
  {
    AllAccepted(Initial(), run);
  }

  lemma {:induction false} AllAccepted(r: Relay, run: seq<Event>)
    requires Legal(r, run) && |r.queue| + |Writes(run)| <= 1024 && Run(r, run).writer.Running?
    ensures Run(r, run).accepted == r.accepted + Flatten(Writes(run))
    decreases |run|
  {
    if run == [] {
    } else {
      hide Enabled, Step, Flatten;
      var r', rest := Step(r, run[0]), run[1..];
      if !r.writer.Running? {
        EndedWriterStays(r, run);
      }
      StepAccepts(r, run[0]);
      AllAccepted(r', rest);
      if run[0].Write? {
        FlattenMore(run[0].data, Writes(rest));
        assert (r.accepted + run[0].data) + Flatten(Writes(rest)) == r.accepted + (run[0].data + Flatten(Writes(rest)));
      } else {
        assert Writes(run) == Writes(rest);
      }
    }
  }

  lemma StepAccepts(r: Relay, e: Event)
    requires Enabled(r, e) && r.writer.Running?
    ensures e.Write? && |r.queue| < 1024 ==>
              |Step(r, e).queue| == |r.queue| + 1 && Step(r, e).accepted == r.accepted + e.data
    ensures !e.Write? ==> |Step(r, e).queue| <= |r.queue| && Step(r, e).accepted == r.accepted
  {
  }

  lemma FlattenMore(chunk: seq<Byte>, rest: seq<seq<Byte>>)
    ensures Flatten([chunk] + rest) == chunk + Flatten(rest)
  {
    assert ([chunk] + rest)[1..] == rest;
  }

  /** A tunnel just inserted takes any 1024 chunks, before the write task has done anything. */
  lemma FreshTunnelTakes(chunks: seq<seq<Byte>>)
    requires |chunks| <= 1024
    ensures var run := [Insert] + WritesOf(chunks);
            Legal(Initial(), run) && Run(Initial(), run).accepted == Flatten(chunks)
  {
    var r := Step(Initial(), Insert);
    RunCons(Initial(), Insert, WritesOf(chunks));
    TakesAll(r, chunks);
  }

  function WritesOf(chunks: seq<seq<Byte>>): seq<Event> {
    if chunks == [] then [] else [Write(chunks[0])] + WritesOf(chunks[1..])
  }

  lemma {:induction false} TakesAll(r: Relay, chunks: seq<seq<Byte>>)
    requires r.entry.Present? && r.writer.Running? && |r.queue| + |chunks| <= 1024
    ensures Legal(r, WritesOf(chunks)) && Run(r, WritesOf(chunks)).accepted == r.accepted + Flatten(chunks)
    decreases |chunks|
  {
    if chunks == [] {
    } else {
      var e, rest := Write(chunks[0]), chunks[1..];
      TakesAll(Step(r, e), rest);
      RunCons(r, e, WritesOf(rest));
      assert (r.accepted + chunks[0]) + Flatten(rest) == r.accepted + (chunks[0] + Flatten(rest));
    }
  }

  // ----- A closed tunnel ends -----

  function Waiting(chunks: seq<seq<Byte>>): nat {
    if chunks == [] then 0 else |chunks[0]| + 2 + Waiting(chunks[1..])
  }

  /** How much the two tasks still have to do. */
  function Remaining(r: Relay): nat {
    Waiting(r.queue) + (if r.busy then |r.inFlight| + 1 else 0) + (if r.writer.Running? then 1 else 0)
    + match r.phase case Selecting => 3 case Closing => 2 case Leaving => 1 case Gone => 0
  }

  /** The steps of the two tasks when nothing fails and the far side says nothing more. */
  predicate Quiet(e: Event) {
    match e
    case Put(n) => n > 0
    case Announce(sent) => sent
    case Take | PutDone | Drain | SelectWriter | Leave => true
    case _ => false
  }

  /** Once the client has closed the tunnel no step adds to what is left to do, and until the
      relay has gone some step of its own takes away from it. */
  lemma ClosedMakesProgress(r: Relay, e: Event)
    requires Inv(r) && r.entry.Removed? && Enabled(r, e)
    ensures Remaining(Step(r, e)) <= Remaining(r)
    ensures Quiet(e) ==> Remaining(Step(r, e)) < Remaining(r)
  {
  }

  lemma ClosedCanMove(r: Relay)
    requires Inv(r) && r.entry.Removed? && !r.phase.Gone?
    ensures Enabled(r, NextQuiet(r)) && Quiet(NextQuiet(r))
  {
  }

  function NextQuiet(r: Relay): Event {
    match r.phase
    case Gone | Leaving => Leave
    case Closing => Announce(true)
    case Selecting =>
      if !r.writer.Running? then SelectWriter
      else if r.busy then if r.inFlight == [] then PutDone else Put(1)
      else if r.queue != [] then Take
      else Drain
  }

  /** From wherever a client closes a tunnel whose two tasks are at work, they can run to
      the end: all that was accepted gets written, then comes one `TunnelClosed`. */
  lemma {:induction false} CloseCompletes(r: Relay) returns (run: seq<Event>)
    requires Inv(r) && r.entry.Removed? && !r.phase.Gone?
    ensures Legal(r, run) && forall i :: 0 <= i < |run| ==> Quiet(run[i])
    ensures var end := Run(r, run);
            && end.phase.Gone? && end.accepted == r.accepted
            && end.emitted == r.emitted + (if r.phase.Leaving? then [] else [TunnelClosed])
            && (r.writer.Drained? || (r.phase.Selecting? && r.writer.Running?) ==> end.written == r.accepted)
    decreases Remaining(r)
  {
    hide Inv, Remaining, Legal, Run;
    var e := NextQuiet(r);
    ClosedCanMove(r);
    ClosedMakesProgress(r, e);
    StepKeepsInv(r, e);
    var r' := Step(r, e);
    var rest := [];
    if r'.phase.Gone? {
      RunNothing(r');
      DrainedHasWritten(r');
    } else {
      rest := CloseCompletes(r');
    }
    run := [e] + rest;
    RunCons(r, e, rest);
  }

  lemma RunNothing(r: Relay)
    ensures Legal(r, []) && Run(r, []) == r
  {
  }

  lemma DrainedHasWritten(r: Relay)
    requires Inv(r)
    ensures r.writer.Drained? ==> r.written == r.accepted
  {
  }

  // ----- When an entry outlives its relay -----

  /** The opener inserts the entry in step `k`, when the relay has already gone, and nobody
      closes the tunnel afterwards. */
  ghost predicate InsertedLate(r: Relay, run: seq<Event>, k: nat) {
    && k < |run| && run[k].Insert?
    && Legal(r, run[..k]) && Run(r, run[..k]).phase.Gone?
    && forall i :: k < i < |run| ==> !run[i].Close?
  }

  lemma {:induction false} InsertedOnce(r: Relay, run: seq<Event>)
    requires Legal(r, run) && !r.entry.Pending?
    ensures forall i :: 0 <= i < |run| ==> !run[i].Insert?
    decreases |run|
  {
    if run == [] {
    } else {
      InsertedOnce(Step(r, run[0]), run[1..]);
      assert run == [run[0]] + run[1..];
    }
  }

  /** A relay that has gone leaves an entry in the map to its client. */
  lemma {:induction false} OnlyCloseRemoves(r: Relay, run: seq<Event>)
    requires Legal(r, run) && r.entry.Present? && r.phase.Gone?
    ensures Run(r, run).phase.Gone?
    ensures Run(r, run).entry.Present? <==> forall i :: 0 <= i < |run| ==> !run[i].Close?
    decreases |run|
  {
    if run == [] {
    } else {
      assert run == [run[0]] + run[1..];
      if run[0].Close? {
        RemovedIsFinal(Step(r, run[0]), run[1..]);
        GoneIsFinal(r, run);
      } else {
        OnlyCloseRemoves(Step(r, run[0]), run[1..]);
      }
    }
  }

  lemma {:induction false} GoneIsFinal(r: Relay, run: seq<Event>)
    requires Legal(r, run) && r.phase.Gone?
    ensures Run(r, run).phase.Gone?
    decreases |run|
  {
    if run == [] {
    } else {
      GoneIsFinal(Step(r, run[0]), run[1..]);
    }
  }

  /** A relay that goes while its entry is in the map takes the entry with it. */
  lemma {:induction false} GoingRemoves(r: Relay, run: seq<Event>)
    requires Legal(r, run) && !r.entry.Pending? && (r.phase.Gone? ==> r.entry.Removed?)
    ensures Run(r, run).phase.Gone? ==> Run(r, run).entry.Removed?
    decreases |run|
  {
    if run == [] {
    } else {
      GoingRemoves(Step(r, run[0]), run[1..]);
    }
  }

  lemma Shifted(r: Relay, run: seq<Event>, k: nat)
    requires Legal(r, run) && run != []
    ensures InsertedLate(r, run, k + 1) <==> InsertedLate(Step(r, run[0]), run[1..], k)
  {
    if k + 1 < |run| {
      assert run[..k + 1][0] == run[0] && run[..k + 1][1..] == run[1..][..k];
      assert forall i :: 0 <= i < |run| - 1 ==> run[1..][i] == run[i + 1];
      assert forall i :: 0 < i < |run| ==> run[i] == run[1..][i - 1];
    }
  }

  lemma {:induction false} PendingOutlivesIff(r: Relay, run: seq<Event>)
    requires Legal(r, run) && r.entry.Pending?
    ensures Run(r, run).phase.Gone? && Run(r, run).entry.Present? <==> exists k: nat :: InsertedLate(r, run, k)
    decreases |run|
  {
    if run == [] {
    } else {
      var r', rest := Step(r, run[0]), run[1..];
      assert run == [run[0]] + rest;
      if run[0].Insert? {
        InsertedOnce(r', rest);
        assert run[..0] == [];
        assert InsertedLate(r, run, 0) <==> r.phase.Gone? && forall i :: 0 <= i < |rest| ==> !rest[i].Close?;
        if r.phase.Gone? {
          OnlyCloseRemoves(r', rest);
        } else {
          GoingRemoves(r', rest);
        }
      } else {
        PendingOutlivesIff(r', rest);
        if k: nat :| InsertedLate(r, run, k) {
          Shifted(r, run, k - 1);
        }
        if k: nat :| InsertedLate(r', rest, k) {
          Shifted(r, run, k);
        }
      }
    }
  }

  /** In every interleaving: a tunnel's entry is in the map after its relay has gone if and
      only if the opener inserted it after the relay had gone and nobody has closed the tunnel
      since. The opener spawns the relay first, and a relay that ends before the insertion
      finds nothing to remove. */
  lemma EntryOutlivesRelayIff(run: seq<Event>)
    requires Legal(Initial(), run)
    ensures Run(Initial(), run).phase.Gone? && Run(Initial(), run).entry.Present?
            <==> exists k: nat :: InsertedLate(Initial(), run, k)
  {
    PendingOutlivesIff(Initial(), run);
  }

  /** Such a run: the reading side ends at once. */
  lemma EntryCanOutliveRelay()
    ensures var run := [ReadEnds, Announce(true), Leave, Insert];
            Legal(Initial(), run) && Run(Initial(), run).phase.Gone? && Run(Initial(), run).entry.Present?
  {
    var r0 := Initial();
    var r1 := Step(r0, ReadEnds);
    var r2 := Step(r1, Announce(true));
    var r3 := Step(r2, Leave);
    var r4 := Step(r3, Insert);
    RunCons(r3, Insert, []);
    RunCons(r2, Leave, [Insert]);
    RunCons(r1, Announce(true), [Leave, Insert]);
    RunCons(r0, ReadEnds, [Announce(true), Leave, Insert]);
    assert [Insert] + [] == [Insert] && [Leave] + [Insert] == [Leave, Insert];
    assert [Announce(true)] + [Leave, Insert] == [Announce(true), Leave, Insert];
    assert [ReadEnds] + [Announce(true), Leave, Insert] == [ReadEnds, Announce(true), Leave, Insert];
  }
}
