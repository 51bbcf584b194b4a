# Remote operations, modelled and proved

distant runs one remote-operations protocol over three backends: the local host, SSH and
Docker. This project models the algorithms and protocols behind that interface in Dafny and
proves what they do: the SSH backend's walks over a remote tree (forced removal, recursive
listing, recursive permission setting), its channel pool, its tunnels and its searches; the
core's handling of requests, single and in batches; the host's recursive copy; and the Docker
backend's search patterns, upward search, archive rewriting and `stat` parsing; and the small
text and authentication loops beside them.

How things are represented:

- A path is the sequence of its components where the tree matters (`FileTree`), and a string
  where the spelling matters (`PathStrings`, `UpwardSearch`, `TarRewrite`). A filesystem is a
  finite map from physical paths to nodes; `Real` follows symbolic links.
- A server is a class or a record of functions whose failures, listing orders and answers are
  arbitrary, so that a theorem about it holds for every server.
- Loops that update variables are methods with loops; each is proved against a predicate or a
  function that does not mention the loop.
- Concurrent parts are step systems: a state, the events that can happen in it, and theorems
  about every legal sequence of events. A step is one access to shared state.
- `dafny verify dfyconfig.toml` checks the whole project.

What came out differently from what the code's comments say:

- A message sent while the reply queue is being flushed can be lost. `QueuedServerReply::send`
  gives the hold flag's lock back before it pushes (distant-core/src/net/server/reply.rs:108-115),
  so a sender that read the flag before `flush` may push after it, into a queue nobody will
  flush again. `NothingLostIff` says exactly when nothing is lost, `LosesAMessage` is a run
  that loses something.
- A forced `remove` of a link to a directory, on a server that does not fail, empties that
  directory and then fails, provided no link on the way lies below the directory. If one does,
  the walk can remove it and lose its own way: the call fails, all directories stay, and what
  else stays is up to the listing order (`RemoveTree.TreeRemoval`; `RemoveOutsideLink`,
  `RemoveInsideLink` and `LinkFirst` are inputs for both sides). A dangling link cannot be
  removed at all, because the first look follows links (`RemoveTree.Removable`).
- An `Or` inside an `Or`, and an `Or` of nothing, compile to patterns that accept everything
  (`SearchPattern.PatternMeaning`, `SearchPattern.LooseAcceptsMore`).
- The pool's channel count drifts exactly when a session in use is evicted, a session set-up
  fails after its channel was counted, or a cached idle session is displaced by one from a
  race (`PoolModel.AlwaysExactIffClean`; `LostSessionClips`, `FailedSetupLeaks` and
  `RacedSetupLeaks` are a run for each).
- A tunnel's map entry outlives its relay exactly when the opener inserts it after the relay
  has gone and nobody closes the tunnel (`TunnelRelay.EntryOutlivesRelayIff`).
- With `follow_symlinks`, recursive permission setting ends exactly when no cycle of directories
  and followed links can be reached (`FollowedLinks.FollowingEndsIff`; `TwoLinksLoop` and
  `OneLinkEnds` are inputs for both sides).
- `parse_stat_output` reads type names of up to four words and no more (`StatOutput.RoundTrip`).

## Model

| member | source | states |
|---|---|---|
| RemoveTree.Remove | distant-ssh/src/api.rs:594-667 | for every listing order and every pattern of failures: what is gone is within reach of the call and each removed node is logged once; success means exactly the named subtree is gone; without failures, any path, also one that runs through links, is removed if and only if it is removable; a failure outside a forced tree removal changes nothing, and a forced removal of a directory leaves the tree that `TreeRemoval` describes, links on the way included |
| RemoveTree.RemovableKey | distant-ssh/src/api.rs:594-667 | for a physical path, removable means: a file, an empty or forced directory other than the top, or a link that leads to something not a directory |
| RemoveTree.DeleteContents | distant-ssh/src/api.rs:615-647 | the stack walk ends and removes only non-directories below the start; on success it has listed every directory once, parents before children; without failures it stops early only if the start no longer resolves |
| RemoveTree.HandleEntries | distant-ssh/src/api.rs:624-645 | after one listing every directory child is on the stack and every other child is gone |
| RemoveTree.AllListed | distant-ssh/src/api.rs:617-647 | with an empty stack, every directory below the start is among those listed |
| RemoveTree.FilesGone | distant-ssh/src/api.rs:617-647 | with an empty stack, every other node below the start is gone |
| RemoveTree.TurnIsEmpty | distant-ssh/src/api.rs:649-654 | in the reversed loop, each directory is there and has no children when its turn comes |
| RemoveTree.TurnIsNamed | distant-ssh/src/api.rs:649-654 | ... and its path still names it as long as the start resolves |
| RemoveTree.UnwindStep | distant-ssh/src/api.rs:649-654 | a `remove_dir` that goes through takes away just the directory whose turn it is |
| RemoveTree.SubtreeGone | distant-ssh/src/api.rs:615-654 | both loops together leave the original tree minus exactly the subtree |
| RemoveTree.DeleteDirectories | distant-ssh/src/api.rs:649-654 | without failures and with a steady way, the second loop succeeds iff the path names the directory itself, and otherwise leaves just the emptied directory; with a broken way it removes nothing |
| RemoveTree.WalkBreaks | distant-ssh/src/api.rs:615-647 | when a link of the way lies below the directory, a complete walk removes it and the path no longer resolves |
| RemoveTree.RemoveOutsideLink | distant-ssh/src/api.rs:594-667 | an input: a link from elsewhere, whose directory is emptied |
| RemoveTree.RemoveInsideLink | distant-ssh/src/api.rs:594-667 | an input: a link inside its own target, where the call fails and the directory stays |
| RemoveTree.LinkFirst | distant-ssh/src/api.rs:624-645 | the same input with the link listed first: the file beside it stays |
| RemoveTree.RemoveThroughLink | distant-ssh/src/api.rs:655-663 | an input: a file named through a linked directory, which is removed |
| ReadDirWalk.ReadDirectory | distant-ssh/src/api.rs:350-543 | succeeds iff the top can be listed; then the entries are, sorted by path, exactly the nodes within the depth bound whose ancestors are all readable, each once, with its path, type and depth, and the errors one for each unreadable directory met |
| ReadDirWalk.WhatIsListed | distant-ssh/src/api.rs:350-543 | said without the walk: the entries are in path order; each stands for one visible node, a directory listed as a directory, a link as a symlink and a file as a file, at its own depth, below the canonical directory in absolute mode and below nothing otherwise; every unreadable directory met is among the errors |
| ReadDirWalk.ReadSingleDir | distant-ssh/src/api.rs:375-449 | one listing without dot entries, each entry with the type and the path its mode calls for |
| ReadDirWalk.FoundAll | distant-ssh/src/api.rs:476-538 | when the work stack is empty, every visible node has been found |
| ReadDirWalk.ResultIsUnique | distant-ssh/src/api.rs:540-543 | two servers that list in different orders give the same sorted entries and the same errors |
| PathStrings.JoinAt | distant-ssh/src/utils.rs:541-554 | joining a relative path string onto a root reaches the same string as walking down component by component |
| PathStrings.AtInjective | distant-ssh/src/utils.rs:541-554 | different nodes below one root have different path strings |
| PathStrings.AtSpelled | distant-ssh/src/utils.rs:541-554 | the string of a node: the root, ending in one slash, and the components with single slashes |
| PathStrings.LessIff | distant-ssh/src/api.rs:540-543 | the order the entries are sorted by: at the first character that differs, a string before those it is a beginning of |
| PermissionWalk.SetPermissions | distant-ssh/src/api.rs:865-917 | every path is changed at most once, parents first, with the mode asked for; success has an exact condition, and then the changed paths are exactly those whose ancestors all took the change |
| PermissionWalk.ProcessQueue | distant-ssh/src/api.rs:889-914 | the queue loop ends on every finite tree, with success iff every directory that took the change could be listed |
| PermissionWalk.ApplyPermissions | distant-ssh/src/api.rs:142-230 | one node: changed iff it can be read, is not an excluded link and takes the new mode; a directory is handed on for listing |
| PermissionWalk.AllChanged | distant-ssh/src/api.rs:889-914 | with an empty queue, every reachable node that takes the change has it |
| UnixMode.MergeMeans | distant-core/src/protocol/common/permissions.rs:243-388 | of the nine bits, those a request sets become what it says and the others stay as they were |
| FollowedLinks.FollowingEndsIff | distant-ssh/src/api.rs:889-914 | with links followed and no failures, for every tree, queue and listing order the queue loop ends iff no cycle of directories and followed links can be reached from the queue |
| FollowedLinks.FollowingLoops | distant-ssh/src/api.rs:889-914 | a link that leads back up is such a cycle |
| FollowedLinks.TwoLinksLoop | distant-ssh/src/api.rs:889-914 | an input: two directories with links to each other, where the loop does not end |
| FollowedLinks.OneLinkEnds | distant-ssh/src/api.rs:889-914 | an input: one link across, where it does |
| PoolModel.EveryRunAccounts | distant-ssh/src/pool.rs:54-186 | after every run the count plus orphaned channels equals the channels plus leaked and lost subtractions, and every exec slot is in a guard, a permit, a release task or released |
| PoolModel.ExactIffClean | distant-ssh/src/pool.rs:54-186 | from an exact count, a step keeps it exact iff it is not one of three named steps; no subtraction is lost |
| PoolModel.CleanRunsAreExact | distant-ssh/src/pool.rs:54-186 | in runs without those steps the count is always exact and `saturating_sub` never saturates |
| PoolModel.AlwaysExactIffClean | distant-ssh/src/pool.rs:54-186 | the count is exact at every moment of a run iff the run has none of those steps |
| PoolModel.FailedSetupLeaks | distant-ssh/src/pool.rs:64-80 | a run in which a failed set-up leaves its channel counted |
| PoolModel.RacedSetupLeaks | distant-ssh/src/pool.rs:64-80 | a run in which two set-ups race and one session stays counted |
| PoolModel.LimitIsStable | distant-ssh/src/pool.rs:138-147 | the channel limit never changes once written |
| PoolModel.LimitIsFirstDiscovery | distant-ssh/src/pool.rs:138-147 | no limit until a first attempt is refused, and then for ever the count of that moment |
| PoolModel.SlotsByRun | distant-ssh/src/pool.rs:89-122 | guards, permits, release tasks and set-ups are, in every run, those that came about and have not become something else |
| PoolModel.SlotsCanBeReleased | distant-ssh/src/pool.rs:184-287 | from every state, dropping what is held and running the release tasks leaves no slot taken and subtracts one for each |
| PoolModel.BorrowUndone | distant-ssh/src/pool.rs:54-87 | borrowing the cached session and giving it back changes nothing |
| PoolModel.LostSessionClips | distant-ssh/src/pool.rs:166-190 | a run in which an eviction meets a borrowed session and a subtraction is lost |
| ChannelPool.Pool.OpenChannel | distant-ssh/src/pool.rs:124-161 | the pool and the answer after an attempt, for every pair of server answers: limit recorded, cached session evicted, one retry |
| ChannelPool.Pool.Sftp | distant-ssh/src/pool.rs:54-87 | the cached session or a new one, with all that a failure leaves behind |
| ChannelPool.Pool.EvictSftp | distant-ssh/src/pool.rs:166-176 | evicting is the step system's eviction; true iff something was cached |
| ChannelPool.Pool.ReturnSftp | distant-ssh/src/pool.rs:178-182 | a returned session is cached again without being counted |
| ChannelPool.Pool.ReleaseSlot | distant-ssh/src/pool.rs:184-190 | a release takes one from the count, stopping at zero |
| ChannelPool.PooledExec.Drop | distant-ssh/src/pool.rs:254-266 | a guard releases its slot iff its channel has not been taken |
| ChannelPool.PooledExec.Take | distant-ssh/src/pool.rs:268-287 | the slot moves to a permit and the guard that is dropped releases nothing |
| ChannelPool.OpenExecs | distant-ssh/src/pool.rs:104-117 | all the guards, or, after a failure, as many pending releases as channels were opened |
| TunnelRelay.EveryTrace | distant-ssh/src/api.rs:1504-1551 | in every interleaving: data messages, then one TunnelClosed if the client can still be reached; sent data is a prefix of what was read, written data a prefix of what was accepted |
| TunnelRelay.TraceOfRun | distant-ssh/src/api.rs:1504-1551 | in every interleaving the client has been sent exactly what the relay's steps sent, in order, and how the two tasks stand follows from what happened to them |
| TunnelRelay.ReadsPassedOn | distant-ssh/src/api.rs:1522-1535 | a reading relay passes on chunks of 1 to 8192 bytes, each in one message |
| TunnelRelay.EachEndIsTold | distant-ssh/src/api.rs:1521-1551 | an end of input, an unreachable client, an error in the middle of a write and a drained queue each lead to one TunnelClosed, if the client can be told, and to the entry's removal in any case |
| TunnelRelay.GracefulCloseWritesAll | distant-ssh/src/api.rs:1410-1440 | an end brought about by neither a write error nor the reading side means the client closed the tunnel, and all accepted data is written and all read data sent before the end is announced |
| TunnelRelay.KeepsWrites | distant-ssh/src/api.rs:1392-1408 | no accepted byte is lost, doubled or reordered on its way through the queue |
| TunnelRelay.WriteAcceptedIff | distant-ssh/src/api.rs:1392-1408 | a `tunnel_write` is taken whole, to the back of the queue, iff the write task lives and fewer than 1024 chunks wait; otherwise nothing changes |
| TunnelRelay.FirstWritesAccepted | distant-ssh/src/api.rs:1392-1408 | in every run of at most 1024 calls, all of them are accepted as long as the write task lives |
| TunnelRelay.CloseCompletes | distant-ssh/src/api.rs:1410-1440 | from wherever a tunnel is closed while its tasks are at work, their own steps can finish: all accepted data written, one TunnelClosed, no relay |
| TunnelRelay.ClosedMakesProgress | distant-ssh/src/api.rs:1410-1440 | once a tunnel is closed no step adds to what its tasks have to do, and each of their own takes away from it |
| TunnelRelay.EntryOutlivesRelayIff | distant-ssh/src/api.rs:1289-1320 | in every interleaving, the map entry is there after its relay has gone iff it was inserted after that and no close followed |
| TunnelRelay.EntryCanOutliveRelay | distant-ssh/src/api.rs:1289-1320 | such a run |
| TunnelRelay.RemovedIsFinal | distant-ssh/src/api.rs:1410-1440 | once out of the map, a tunnel stays out and accepts nothing more |
| TunnelRegistry.IssuedDistinctIff | distant-ssh/src/api.rs:1289-1290 | in every run the ids handed out are distinct iff there are at most 2^32 of them |
| TunnelRegistry.ListenersAreRegistered | distant-ssh/src/api.rs:1358-1388 | between operations every listener's id is that of a registered reverse tunnel for its address |
| TunnelRegistry.RetiredStaysOut | distant-ssh/src/api.rs:1410-1440 | until the counter wraps, a closed or finished id never reappears in the map |
| TunnelRegistry.TunnelsAreThoseKept | distant-ssh/src/api.rs:1289-1440 | in every run, also past a wrap of the counter, the map holds a tunnel iff it was inserted and has been neither closed nor ended since |
| TunnelRegistry.ListenerStays | distant-ssh/src/api.rs:1410-1440 | a reverse tunnel keeps its listener until it is closed or another listener takes its key |
| TunnelRegistry.OpenCloseUndone | distant-ssh/src/api.rs:1289-1440 | opening a tunnel and closing it, or the end of its relay, leaves both maps as they were |
| TunnelRegistry.ListenCloseUndone | distant-ssh/src/api.rs:1358-1440 | listening and closing leaves the tunnels as they were and the listeners too, but for one that was there under the same key |
| TunnelRegistry.ListenerKeyIsBoundPort | distant-ssh/src/api.rs:1341-1366 | a listener is registered under the port connections are reported for iff the server names that port or, naming none, has bound the one asked for; servers that follow section 7.1 of RFC 4254 do |
| SearchLifecycle.EverySearchEnds | distant-ssh/src/api.rs:940-1020 | every finished search has sent at most one SearchResults, with the working commands' outputs in command order, then one SearchDone; the map holds exactly the unfinished ones |
| SearchLifecycle.UncancelledReports | distant-ssh/src/api.rs:954-1016 | a finished search that nobody cancelled has run all its commands and sent exactly the working ones' outputs, in order, if there are any, and then SearchDone |
| SearchLifecycle.SearchCanRun | distant-ssh/src/api.rs:940-1020 | in every reachable state a new search can start and, for every way its commands end, run to that end by itself |
| SearchLifecycle.CancelledStops | distant-ssh/src/api.rs:961-964 | after a cancellation no further command is started |
| SearchLifecycle.CancelFindsFlag | distant-ssh/src/api.rs:1022-1037 | `cancel_search` finds the flag of exactly the searches that are not over |
| SearchLifecycle.CancelledStaysSilent | distant-ssh/src/api.rs:1022-1037 | a silenced search never sends results, whatever happens afterwards |
| SearchLifecycle.StoreSilences | distant-ssh/src/api.rs:1022-1037 | a cancellation stored before the final check silences the search |
| SearchLifecycle.OverIsFinal | distant-ssh/src/api.rs:1009-1016 | a search that has left the map sends nothing more |
| SearchLifecycle.StepsMakeProgress | distant-ssh/src/api.rs:940-1020 | each of a search's own steps brings it nearer its end and no other step changes it |
| SearchLifecycle.NeverStuck | distant-ssh/src/api.rs:940-1020 | a search that is not over can always take a step |
| QueuedReply.QueuedServerReply.Send | distant-core/src/net/server/reply.rs:108-115 | held messages go to the back of the queue, others to the connection |
| QueuedReply.QueuedServerReply.SendBefore | distant-core/src/net/server/reply.rs:118-125 | a held message goes to the front |
| QueuedReply.QueuedServerReply.Flush | distant-core/src/net/server/reply.rs:132-146 | the queue goes out in order, or as much of it as the connection takes; holding changes only on success |
| QueuedReply.AnswerRequest | distant-core/src/api.rs:607-619 | what the connection gets is the answer, then everything held, in order, or a prefix of that |
| BatchRequests.SequentialBatch | distant-core/src/api.rs:533-568 | exactly the requests up to the first failure reach the API, each in the state its predecessors left; all later positions are cancelled |
| BatchRequests.ParallelBatch | distant-core/src/api.rs:570-604 | every request gets one task, every task runs exactly once, for every choice of handles and every order of completion; answer i is what the API made of request i in the state that the tasks ended before it had left, panics reported as errors |
| BatchRequests.SpawnAll | distant-core/src/api.rs:570-592 | the spawning loop: different handles, one for each request, in order |
| BatchRequests.JoinAll | distant-core/src/api.rs:594-604 | the join: the outcome of each handle, in the handles' order |
| RequestRuns.AnswerGoesFirst | distant-core/src/api.rs:505-621 | in every interleaving the first message out is the request's answer, the rest accepted messages in order, none twice |
| RequestRuns.NothingLostIff | distant-core/src/net/server/reply.rs:108-146 | on an open connection every message goes out iff no call of `send` straddled the flush |
| RequestRuns.StraddlerIsStuck | distant-core/src/net/server/reply.rs:108-146 | a message that straddled the flush never goes out |
| RequestRuns.LosesAMessage | distant-core/src/net/server/reply.rs:108-146 | a run that loses a message |
| RequestRuns.SendLands | distant-core/src/net/server/reply.rs:108-115 | a `send` that nothing comes between succeeds on an open connection, last in the queue while messages are held and at once afterwards |
| RequestRuns.SingleAnswer | distant-core/src/api.rs:518-531 | a single request reaches the API once, and what goes out first is its handler's own response |
| RequestRuns.SequentialAnswer | distant-core/src/api.rs:533-568 | the same prefix law for a sequence whose handlers run among other tasks |
| RequestRuns.ParallelAnswer | distant-core/src/api.rs:570-604 | with other tasks sending all along, the answer is put in front only when every request of the list has reached the API and ended; no position is cancelled |
| RequestRuns.AnswerIsFixed | distant-core/src/api.rs:607-619 | nothing changes the answer once the handler has it |
| RequestRuns.HandlerCanMove | distant-core/src/api.rs:505-621 | a handler that has not flushed can always take a step of its own |
| HostCopy.Host.Copy | distant-host/src/api.rs:237-291 | for every walk order: a tree copy succeeds iff every entry fits (directories need free names, files readable sources and writable names); the result, or what a failure leaves, is described node by node |
| HostCopy.Host.CopyEntry | distant-host/src/api.rs:260-285 | one entry: succeeds iff it fits, and adds just that node |
| HostCopy.FitsIff | distant-host/src/api.rs:260-285 | what stands in an entry's way: a namesake, for a directory; a directory of its name, for a file, while a file is overwritten; for a link also that it leads to no file |
| HostCopy.Host.CreateDirAll | distant-host/src/api.rs:250-250 | makes exactly the missing directories on the way, or nothing |
| HostCopy.LandingMeans | distant-host/src/api.rs:250-250 | directories can be made iff the part of the path that exists leads to a directory in which the next name is free; the rest goes below it |
| HostCopy.Host.CopyFile | distant-host/src/api.rs:279-281 | the target gets the bytes; a file copied onto itself is emptied |
| HostCopy.WriteTargetIff | distant-host/src/api.rs:279-281 | bytes end up in the one node at which a file can be, or come to be, found under the target's name |
| HostCopy.PlainJobFits | distant-host/src/api.rs:252-286 | for directories and files and an absent or empty destination outside the source, nothing can be in the way |
| HostCopy.PlainJobCopies | distant-host/src/api.rs:252-286 | ... and the destination ends equal to the source, byte by byte, the source unchanged |
| HostCopy.SourceFileUntouched | distant-host/src/api.rs:252-286 | the copy never writes what it has yet to read, even into an ancestor of the source |
| RegexModel.ParseAlternation | distant-docker/src/search.rs:238-252 | joining two patterns with a bar joins their alternatives |
| RegexModel.FindEndComplete | distant-docker/src/search.rs:611-628 | the matcher finds a match wherever the semantics has one |
| RegexModel.IsMatch | distant-docker/src/search.rs:589-600 | decides the declarative semantics |
| SearchPattern.ShellEscapePattern | distant-docker/src/search.rs:21-33 | the loop computes the escaping that `ParseEscaped` shows to be undone by parsing |
| SearchPattern.ParseEscaped | distant-docker/src/search.rs:21-33 | an escaped string parses as exactly its characters |
| SearchPattern.PatternMeaning | distant-docker/src/search.rs:221-254 | a condition's pattern compiles and finds a match iff the condition holds, or the condition is loose |
| SearchPattern.LooseAcceptsMore | distant-docker/src/search.rs:228-252 | loose conditions accept strings they should not |
| SearchPattern.PathMatchesAreWanted | distant-docker/src/search.rs:561-604 | exactly the lines that meet condition, include and not exclude are returned, in order |
| SearchPattern.ListedPathsAreFiltered | distant-docker/src/search.rs:561-604 | from a listing of paths, one a line with either line ending, exactly the wanted paths come back |
| SearchPattern.SubmatchesAreLeftmost | distant-docker/src/search.rs:597-628 | every returned path has one submatch: the leftmost match of any part of the condition, and there of the first part that has one; the whole path at zero if the pattern does not compile |
| SearchPattern.SubmatchOfSimple | distant-docker/src/search.rs:597-628 | for a simple condition every returned path has one submatch: the value, where it lies in that path, its first occurrence for `Contains` |
| UpwardSearch.BuildUpwardSearchCommands | distant-docker/src/search.rs:116-188 | one command for each visited directory in order, or the failure of one of them |
| UpwardSearch.Ancestors | distant-docker/src/search.rs:151-184 | the visited directories are the chain of parents, ending at the fixed point or the limit, whichever comes first |
| UpwardSearch.AncestorNames | distant-docker/src/search.rs:151-203 | the k-th ancestor has the names of the start but for the last k |
| UpwardSearch.HeightFalls | distant-docker/src/search.rs:193-203 | taking parents stops at a path that is its own parent, after as many steps as there are names |
| UpwardSearch.ParentDropsLastName | distant-docker/src/search.rs:196-203 | the parent string names everything but the last name, from the same start |
| UpwardSearch.NamesGrow | distant-docker/src/search.rs:193-203 | a further component is a further name unless it is empty or a dot |
| TarRewrite.RewriteEntries | distant-docker/src/utils.rs:720-765 | entries keep order, kind and data; the root's name is exchanged in the paths that begin with it, and nothing else |
| TarRewrite.RenamingKeepsTheTree | distant-docker/src/utils.rs:736-747 | in an archive rooted at the source no two entries become one, lying below is kept both ways, the root becomes the destination |
| TarRewrite.RenamingIsUndone | distant-docker/src/utils.rs:736-747 | renaming back restores every path |
| TarRewrite.OnlyStraysCollide | distant-docker/src/utils.rs:736-747 | two different entries meet iff one of them lies outside the root, under the other's new name |
| TarRewrite.DirectoryEntries | distant-docker/src/utils.rs:591-660 | one entry per non-empty prefix of the names, then the marker; nothing for a path without names |
| TarRewrite.EntriesAreNested | distant-docker/src/utils.rs:625-645 | every entry lies below all earlier ones |
| TarRewrite.NamesOfEntry | distant-docker/src/utils.rs:597-612 | an entry's path names exactly the prefix it was made from |
| TarRewrite.NamesGrow | distant-docker/src/utils.rs:597-612 | a further component is a further name unless it is empty or consists of one or two dots |
| StatOutput.ParseStatOutput | distant-docker/src/api.rs:1356-1417 | the scan finds the first number, and nothing is parsed without one after the type name |
| StatOutput.UnderstoodIff | distant-docker/src/api.rs:1356-1417 | a line is understood iff a number follows the type's name and, four parts on, an octal mode; asking for six parts first excludes nothing more |
| StatOutput.RoundTrip | distant-docker/src/api.rs:1356-1417 | printing and parsing gives everything back, times before 1970 and a zero creation time as none, if the type name has at most four words, and nothing if it has more |
| StatOutput.PermissionsSurvive | distant-docker/src/api.rs:1388-1404 | all nine permissions come back, whatever bits stand above them |
| CredentialScan.Find | distant-core/src/credentials.rs:108-134 | the parse of the token at the least occurrence that yields one, none iff there is none |
| CredentialScan.NoOverlap | distant-core/src/credentials.rs:111-111 | occurrences of the scheme never overlap, so non-overlapping matching misses none |
| CredentialScan.StrictImpliesLax | distant-core/src/credentials.rs:108-134 | where the strict search finds something, the lax one does, there or earlier |
| CredentialScan.TokenIsMaximal | distant-core/src/credentials.rs:121-125 | the token reaches exactly to the next boundary or the end |
| KeyboardAuth.Session.TryKeyboardInteractive | distant-ssh/src/auth.rs:593-674 | against every server and user: one response to each answerable request, the right one; the first other reply decides; methods and the prompted flag are as the exchange says |
| KeyboardAuth.Round | distant-ssh/src/auth.rs:618-662 | answering one request keeps what was sent and shown in step with the requests |
| KeyboardAuth.EndsOnce | distant-ssh/src/auth.rs:610-665 | where an exchange ends depends on the two parties alone |
| KeyboardAuth.PromptedIff | distant-ssh/src/auth.rs:636-636 | the user was shown something iff some request asked for something |

## Left out

- Transports: SFTP, SSH, Docker's API, sockets and the runtime are replaced by arbitrary servers, channels and steps.
- Windows: paths, services and shells of the Windows family.
- Timeouts, sleeps, logging, configuration, the command line and plugins: no logic that the theorems need.
- Key files, certificates, agents and password authentication; the order of the methods tried.
- `KeyboardAuth.Session.TryKeyboardInteractive`: the server's script is finite, so a server that sends requests for ever, which would never let go of the client, is not covered.
- Listings by the local host and by Docker, and `read_dir` in the mode that canonicalizes without being absolute: paths are re-based there.
- `ReadDirWalk.ReadDirectory`: assumes directories that are listed at most once answer consistently with one tree, which a server changing meanwhile does not; a depth bound of `usize::MAX` counts as none.
- `PermissionWalk.SetPermissions`: does not follow links. Changes are counted by path; where a server lets a change of a link's path land is not modelled. Bits above the nine are dropped from what is written, as the backend's own numbers have only nine.
- `FollowedLinks.FollowingEndsIff`: takes every operation to succeed and link targets to be absolute paths; says when the loop ends, not which modes it leaves.
- Real: the server's bound on links counts nesting, not links in all.
- RegexModel: groups, classes, other repetitions, flags and escapes of letters do not parse, so conditions that bring such expressions along are outside `SearchPattern.Supported`; submatch offsets count characters, not bytes.
- Search commands as shell text, ripgrep and grep output, and what plain grep makes of the same pattern, whose syntax is another one.
- `TunnelRelay.EveryTrace`: does not model the abort in distant-ssh/src/lib.rs:549-555, where a forwarded tunnel is closed between insertion and the update of its handle; nor Docker's relay with its drain period.
- Tunnels, searches and requests are step systems on values, not classes, because what is claimed of them is claimed of interleavings.
- `SearchLifecycle`: random search ids are taken to be new.
- `ChannelPool.Pool.OpenChannel`: does not model the lock on the connection handle, which distant-ssh/src/pool.rs:125 still holds when the retry asks for it, so nothing is claimed about the retry coming back; waiting callers are not modelled either.
- `ChannelPool`: a guard that outlives its pool releases nothing; here the pool lives on.
- `BatchRequests.ParallelBatch`: each handler runs in one piece; handlers whose steps interleave, and what they send meanwhile, are in `RequestRuns`.
- `RequestRuns`: a panic outside a spawned task ends the handler and is not modelled; the two locks of the queue are never poisoned.
- `HostCopy.Host.Copy`: does not model a destination inside the source, where the walk meets its own output, nor destinations that hold symbolic links, nor links of the source whose resolution runs into the destination. Other dangling links are covered: the copy fails at them.
- `UpwardSearch`: the path library's `parent` is taken to work as Rust's standard library defines it for Unix paths.
- `TarRewrite`: headers beyond path, kind and data; paths that are not valid text.
- `CredentialScan.Find`: what parses as credentials is a function taken as given.
