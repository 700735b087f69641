# kvl in Dafny

`kvl` puts one key/value interface and one service registrar over etcd and Consul. This
project models the logic that sits above the two clients and proves what it keeps, step by
step and over whole runs.

| file | what it models |
|---|---|
| `Text.dfy`, `Wrappers.dfy` | paths (`strings.Split`/`Join`), ancestors, case folding, prefixes; optional values |
| `EtcdTree.dfy`, `EtcdStore.dfy` | the etcd store: a write and the directory tags that follow it, by a function and by the source's methods |
| `EtcdRuns.dfy` | exact effect, commuting writes, the directory tree kept closed |
| `Isolation.dfy` | several stores on one server, kept apart by their roots, operation by operation |
| `Requests.dfy` | the same, interleaved request by request |
| `Backends.dfy` | Consul's key/value side, and when the two backends answer alike |
| `ServiceId.dfy`, `Registry.dfy` | generated ids, and what Register and deregister do to the etcd key space |
| `Lease.dfy` | the etcd heartbeat in timed steps, with deregistrations and the closing of the store |
| `Acquire.dfy` | Consul's lock protocol in every interleaving |
| `Handshake.dfy` | Consul's Close against any number of heartbeat routines |
| `Watch.dfy` | the snapshot comparison behind Consul's prefix watch |
| `Utf8.dfy`, `Unicode.dfy` | the `\uXXXX` expander and the printer it undoes |
| `Retry.dfy`, `Agent.dfy` | retry with capped backoff; Consul registration and deregistration |

How the model reads the source:

- etcd is a flat map from keys to a value and a lease; it refuses the empty key. A client
  marked faulty may refuse any request, and a refused request changes nothing. Contracts
  guarded by `!faulty` say what happens when no request is refused; the others hold always.
- A failed `Grant` answers nil and `PutTTLLite` then reads its ID: the model has a `Panicked`
  outcome for it, and the key is not written.
- `strings.EqualFold` compares canonical representatives under a folding function that the
  theorems take as a parameter. For the directory tag ASCII folding is exact, because the tag
  holds no letter with a non-ASCII case variant.
- `log.Fatal` ends the process: `Handshake.dfy` has it as a step of its own (a deregistration
  that finds no service of the name, a refused query, removal or registration), `Agent.dfy` as
  an outcome.
- In `Handshake.dfy` each look at the store's client is a step of its own; a request that was
  begun with the client goes on after Close has dropped it.
- The source does not show what Consul's client does about a key that begins with '/': it
  refuses to write one, and whether it refuses or strips the '/' on reads and deletions is a
  parameter of the theorems.
- Goroutines, channels and the clock become state machines whose runs are sequences of states;
  the order of Go's map iteration is a parameter.
- Some properties one might expect are false of the code. The model keeps the code and the
  theorems say exactly when the property holds:
  - a directory tree stays closed only under safe operations (`RunClosed`), and while a path is
    being tagged it is open until the directories still to come are there (`MidwayClosed`);
  - the backends agree only on keys that are not directories of each other and that Consul does
    not refuse for a leading '/', and only if no prefix with one is stripped (`BackendsAgree`);
  - deregistering from etcd removes the instance only until its heartbeat's next write, which
    brings the address back without its directory: no deregistration stops the loop
    (`HeartbeatUndoesDeregister`, `DeregisterUndoesRegister`). The key stays away exactly as
    long as no write lands, and may come back within ttl+1 seconds unless the loop has stopped
    or the store is closed with no write under way (`AwayUntilLanding`,
    `ComesBackUnlessSilent`); with Consul the routine's next tick registers the service again
    and starts a second routine (`DeregistrationLasts`, `Tick`);
  - a watch misses a key created in the middle of the list, and everything in the listing after
    a nil one (`UpdatesAnnouncedOverRuns`, `MirrorExact`, `NilSwallowsAKey`);
  - a refused heartbeat loses the key, unless it was the loop's first write, which follows
    PutTTL at once (`WhenRefusalsLoseTheKey`, `FirstRefusalIsHarmless`);
  - Close may hang exactly when it is called before a routine has set the present flag, which
    includes a store that never registered anything but registers while Close is under way
    (`HangsOnlyWhenEarly`); otherwise it can always finish (`FinishesUnlessDoomed`), and it
    frees one heartbeat routine, or none when called early; any other one ends the process, by
    a crash over the dropped client or, if it had got hold of the client before, possibly by
    `log.Fatal` (`OthersEndIt`, `CrashStillPossible`, `FatalStillPossible`);
  - registering again starts no second routine, unless the agent has dropped the service in
    between (`RoutineCount`);
  - Consul's deregistration goes by service name alone (`FastRemovesTheRightOne`);
  - an escape that names a surrogate panics (`PanicsOnSurrogates`, `UnescapePanics`), and an
    escape outside the selected spans, as in a YAML list, stays as it is (`SelectionMatters`).
- The comment on `Deregister` in `store/reg.go:21-22` says that a given id decides. The code
  differs, and the model follows it: Consul ignores the id, and on etcd port 0 or an
  unspecified address removes every peer whatever the id.

## Model

| member | source | states |
|---|---|---|
| `Text.JoinSplit` | etcd/core.go:198-201 | joining the split parts gives the path back, and no part holds a '/' |
| `Text.AncestorsAre` | etcd/core.go:198-201 | the paths before each '/' are exactly the paths that, followed by '/', are a prefix |
| `Text.EqualFoldExact` | consul/consul_util/consul_util.go:135 | where the folding merges no two different characters of two strings, they match exactly if they are equal |
| `Text.EqualFoldSwap` | consul/consul_util/consul_util.go:135 | a character may stand for any other with the same fold |
| `Text.AsciiFoldsAlike` | etcd/core.go:204 | under ASCII folding two characters match exactly if they are equal or the two cases of one letter |
| `EtcdTree.IsTagExact` | etcd/core.go:204-214 | a value counts as the directory tag exactly if it is the tag up to the case of letters; none of its letters folds beyond ASCII |
| `EtcdStore.KVStoreEtcd.Get` | etcd/core.go:77-93 | Get answers the value at root/key, and "" for a missing key; a refused request answers "" too |
| `EtcdStore.KVStoreEtcd.Put` | etcd/core.go:209-220 | an error means nothing was written; success means the value is at the key and only tags on ancestors came with it, even if requests fail on the way; on a sound client the store and the write requests, in their order, are exactly the specified ones, and the mutual recursion ends |
| `EtcdStore.KVStoreEtcd.PutLite` | etcd/core.go:222-233 | writes the one key under the root and nothing else, with one request |
| `EtcdStore.KVStoreEtcd.BuildForDirectory` | etcd/core.go:197-207 | the loop over the shrinking parts tags exactly the untagged proper ancestors, one request each, deepest first; on a faulty client it still only adds tags on ancestors |
| `EtcdTree.TagOrderIs` | etcd/core.go:197-207 | the order of the tags holds each untagged proper ancestor, once |
| `EtcdTree.DeepestFirst` | etcd/core.go:200-206 | and each before those above it |
| `EtcdTree.PutWritesCount` | etcd/core.go:197-220 | so a write sends one request and one for each untagged ancestor |
| `EtcdStore.KVStoreEtcd.PutTTL` | etcd/core.go:235-246 | like Put, with the key on a fresh lease and the tags on none |
| `EtcdStore.KVStoreEtcd.PutTTLLite` | etcd/core.go:248-264 | one grant and one write on its lease; a failed grant is a panic that writes nothing |
| `EtcdStore.KVStoreEtcd.PutYaml` | etcd/core.go:266-276 | like Put, with directories built whatever the document holds |
| `EtcdStore.KVStoreEtcd.Delete` | etcd/core.go:307-318 | removes the one key under the root, and reports the request's success |
| `EtcdStore.KVStoreEtcd.DeletePrefix` | etcd/core.go:320-335 | removes exactly the keys that begin with root/prefix, or with the bare root for an empty prefix |
| `EtcdStore.KVStoreEtcd.Register` | etcd/core.go:401-460 | leaves tags and meta under the peer's key, with the generated id when none is given, and starts one heartbeat with a ttl of 8 for 0, whose value spells the address: four numbers between dots, a colon, the port; on a faulty client success still means both entries, and an error none or the tags entry alone and no heartbeat, with nothing else touched but directory tags above the peer |
| `EtcdStore.KVStoreEtcd.Beat` | etcd/core.go:441-442 | one turn of a heartbeat writes the address on a fresh lease while the store is open, tags no directory, and does nothing once it is closed |
| `EtcdStore.KVStoreEtcd.Deregister` | etcd/core.go:467-517 | removes exactly the keys under the deregistered prefix and stops no heartbeat; a closed store does nothing and a refused request goes unreported |
| `EtcdRuns.PutEffect` | etcd/core.go:197-220 | after a write the key holds the value, each untagged proper ancestor the tag, an existing tag is left as it was, and every other key of the root is unchanged |
| `EtcdRuns.PutIdempotent` | etcd/core.go:197-220 | repeating a write leaves the store as it is |
| `EtcdRuns.PutRequestCount` | etcd/core.go:197-220 | the first write sends at most 1 + number of '/' requests; the repeated one sends exactly one unless the path has an empty first part and there is no root |
| `EtcdRuns.PutsCommute` | etcd/core.go:197-220 | two plain writes commute exactly when they are the same write, or go to distinct keys of which neither is a directory of the other |
| `EtcdRuns.BatchClosedForm` | etcd/core.go:197-220 | the store after a batch of such writes, as a function of the initial store and the set of writes |
| `EtcdRuns.BatchOrderIrrelevant` | etcd/core.go:197-220 | any order of the batch, with any repetitions, leaves the same store |
| `EtcdRuns.StepClosed` | etcd/core.go:197-246 | an operation keeps "every ancestor of a stored key is stored" exactly when it is safe |
| `EtcdRuns.RunClosed` | etcd/core.go:197-335 | over any run from a closed store, the tree is closed at every point exactly when every operation was safe when made |
| `EtcdRuns.MidwayClosed` | etcd/core.go:197-207 | between two tags of one write the tree is closed exactly when every directory still to be tagged was already there; when none is left the write is complete |
| `Isolation.ViewRefines` | etcd/core.go:77-82 | through a nonempty root every operation acts as on a directory store of its own, with directory tags inside it |
| `Isolation.Untouched` | etcd/core.go:320-335 | an operation changes no key outside its root, apart from the empty prefix, which reaches every key that begins with the bare root |
| `Isolation.NoInterference` | etcd/core.go:197-335 | an operation leaves the view of every store whose root is separate from its reach unchanged |
| `Isolation.IsolatedRun` | etcd/core.go:77-335 | in any run interleaved operation by operation, a store with a separate root ends with the view, and gets the answers, of a run of its own operations alone |
| `Isolation.EmptyPrefixReachesSiblings` | etcd/core.go:321-323 | deleting the empty prefix clears every store whose root begins with the same letters |
| `Requests.TurnKeepsOutcome` | etcd/core.go:197-220 | every single request of a store, in the middle of `buildForDirectory` too, keeps the tree and the answers it is on its way to |
| `Requests.OutcomeIsFixed` | etcd/core.go:77-335 | however the requests of several stores interleave, what a store with a separate root is on its way to never changes |
| `Requests.RequestsIsolated` | etcd/core.go:77-335 | when such a store is through, its tree and its answers are those of its own operations run one after the other with nobody else about |
| `Requests.TurnsSuffice` | etcd/core.go:197-220 | a store is through after one request for each operation and two for each '/' of a written path, whatever the others do in between |
| `Backends.KVStoreConsul.Get` | consul/core.go:79-96 | answers the value at root/key, with a leading '/' refused or stripped as the client does, and "" for a missing or refused key; on a faulty client perhaps "" |
| `Backends.KVStoreConsul.Put` | consul/core.go:254-278 | writes the one key, without directories; a failed request changes nothing, and on a sound client only an empty key or one with a leading '/' fails |
| `Backends.KVStoreConsul.Delete` | consul/core.go:348-360 | removes the one key and reports the request's success, with a leading '/' refused or stripped |
| `Backends.KVStoreConsul.DeletePrefix` | consul/core.go:362-378 | removes exactly the keys that begin with root/prefix, or with the bare root, and reports the request's success, with a leading '/' refused or stripped |
| `Backends.BothRefine` | etcd/core.go:77-335 | over keys of which none is a directory of another or bears a leading '/', and that no stripped prefix reaches, every run of both backends answers as one plain map does |
| `Backends.LeadingSlash` | consul/core.go:79-96 | a client that strips a leading '/' reads and deletes the key behind it; one that refuses it answers "" and deletes nothing |
| `Backends.BackendsAgree` | consul/core.go:254-278 | both backends, started empty, answer alike on every run over a set of keys exactly when no key is a directory of another, none has a leading '/' under the root, and, where the client strips a leading '/' from prefixes, there is a root or no key with a name |
| `ServiceId.GeneratedIdInjective` | etcd/core.go:410-412 | generated ids determine service name, address and port, whatever dashes and digits the name holds |
| `ServiceId.GeneratedIdReadsBack` | etcd/core.go:410-412 | a generated id is the service, a dash, and the four numbers of the address and the port between dashes |
| `ServiceId.AddrReadsBack` | etcd/core.go:436 | what a heartbeat writes reads back as the address and the port |
| `ServiceId.PeerKeyFields` | etcd/core.go:407-419 | a peer lies at services/service/peers/id |
| `ServiceId.DecimalSpells` | etcd/core.go:411 | the decimal of a number is its one spelling in digits without a zero in front |
| `ServiceId.DecimalPrefix` | etcd/core.go:480 | one port's decimal begins with another's exactly when dropping last digits leads to it |
| `ServiceId.GeneratedPrefix` | etcd/core.go:471-497 | a generated id is a prefix of another's keys exactly for the same address and a port that begins with the port |
| `Registry.DeregisterGenerated` | etcd/core.go:471-497 | deregistering under a generated id removes exactly the peers of the same address whose port's decimal begins with the given port's |
| `Registry.DeregisterExplicit` | etcd/core.go:482-497 | a slash-free explicit id removes exactly the peers whose id begins with it |
| `Registry.DeregisterAllPeers` | etcd/core.go:482-493 | port 0 or no address removes every peer of the service, even with an id |
| `Registry.OtherServicesUntouched` | etcd/core.go:491-497 | no deregistration changes a key of another service |
| `Registry.RegisteredPeer` | etcd/core.go:424-436 | after a registration and its first beat the tags and meta stand on no lease, the address on the beat's, and the peer's directory is tagged |
| `Registry.DeregisterUndoesRegister` | etcd/core.go:401-517 | registering an instance, any beats, deregistering it and any beats after that leave directory tags above it and, exactly if there was a beat after the deregistration, its address |
| `Registry.HeartbeatUndoesDeregister` | etcd/core.go:441-517 | after any deregistration that covers the instance, whatever was stored, its address is back exactly if its heartbeat beats again, its directory is gone, and a closed tree stays closed exactly if it does not beat |
| `Lease.Heartbeat` | etcd/core.go:420-458 | the loop with its two waits, for any delays and refusals, is a run of the timed steps for just the ttl asked for, or 8 for 0, that ends stopped; its clock, its leases and its refused writes are the sums over the given turns, and a refused PutTTL ends it |
| `Lease.PresentIffLastLeaseLives` | etcd/core.go:248-264 | in every state of every run the address key is present exactly while the last landed write's lease lives and the instance was not deregistered since that landing; superseded leases expire without effect |
| `Lease.RenewedInTime` | etcd/core.go:433-458 | while no write is refused and two consecutive calls take less than one second together, the key is present from the first landing until the loop stops, exactly unless the instance was deregistered since the last landing |
| `Lease.SlackIsTight` | etcd/core.go:436-455 | with exactly one second of latency the key is lost, for every ttl |
| `Lease.RefusalLosesTheKey` | etcd/core.go:442-449 | once a heartbeat that followed a full sleep is refused, the key is gone before the retry, whatever the latencies |
| `Lease.WhenRefusalsLoseTheKey` | etcd/core.go:433-455 | with less than a second of latency in all, the key is there during a later call exactly if the instance was not deregistered since the last landing, and no write was refused since, or the refused ones all belong to the loop's first write and their waits fit into ttl |
| `Lease.FirstRefusalIsHarmless` | etcd/core.go:441-449 | after a single refusal the key is still there exactly if the refused write was the loop's first and nobody deregistered the instance since |
| `Lease.FirstRefusalRun` | etcd/core.go:434-449 | for every ttl a run with one refusal that keeps the key until the retry |
| `Lease.RetrySchedule` | etcd/core.go:442-449 | after n refused writes the next is due exactly n times a third of ttl, rounded up, plus the calls' latencies, after the first was |
| `Lease.GoneAfterStop` | etcd/core.go:441-457 | the key outlives the loop by at most ttl+1 seconds |
| `Lease.DeletedMeans` | etcd/core.go:467-517 | the history flag of a deletion says just that a deregistration came after the last landing of the run |
| `Lease.AwayUntilLanding` | etcd/core.go:434-517 | over every run a key that is gone, deregistered or expired, stays away exactly as long as no write lands |
| `Lease.AwayForGood` | etcd/core.go:434-517 | when the store is closed after that, or the loop stops, it stays away for good exactly if no write landed in between |
| `Lease.CanComeBack` | etcd/core.go:441-455 | a loop that goes on can write the key back within ttl+1 seconds |
| `Lease.DeregisteredInFlight` | etcd/core.go:442-517 | for every ttl a run in which a write that was under way brings a deregistered key back at once |
| `Lease.ComesBackUnlessSilent` | etcd/core.go:441-517 | a key that is gone can come back exactly unless the loop has stopped, or the store is closed and no write that can land is under way |
| `Acquire.CallbacksOrdered` | consul/core.go:202-245 | in every interleaving at most one of doneFunc and cancelledFunc runs, and only after doingSth returned; Unlock only follows doneFunc; cancelledFunc only follows blockFunc's cancellation and a session loss; doneUnlockedFunc only follows the closing of the lock channel |
| `Acquire.ChoiceIsExact` | consul/core.go:222-227 | doingSth is followed by cancelledFunc exactly if blockFunc has cancelled, and by doneFunc exactly if not |
| `Acquire.LogIsExact` | consul/core.go:219-244 | every other event is in the log exactly if its action was taken |
| `Acquire.CancelledRun` | consul/core.go:219-244 | a run that loses the session while doingSth works and ends in cancelledFunc |
| `Acquire.WithoutLoss` | consul/core.go:219-244 | without a session loss cancelledFunc never runs, and doneFunc and Unlock precede doneUnlockedFunc |
| `Acquire.LockFailed` | consul/core.go:209-213 | when the lock fails, blockFunc stays blocked, nothing is cancelled, and neither cancelledFunc nor doneUnlockedFunc runs |
| `Acquire.RunsAreShort` | consul/core.go:219-244 | every run ends after at most nine actions |
| `Acquire.BlockFuncReturns` | consul/core.go:236-244 | a run that cannot go on by itself, with the lock taken, doingSth returned and blockFunc called, has seen blockFunc return |
| `Handshake.HandshakeSafe` | consul/core.go:676-739 | for any number of routines, in every run whose Close is not early, at most one is told to quit; through its whole deregistration the client is set, and it sends the single End signal on an open channel whose buffer has room; Close is done only after it |
| `Handshake.EarlyTellsNobody` | consul/core.go:710-722 | a Close called before the present flag is set tells no routine and gets no signal |
| `Handshake.StageNeverGrows` | consul/core.go:707-739 | no step of anyone takes Close back |
| `Handshake.FinishesUnlessDoomed` | consul/core.go:707-739 | from a reachable state, before or during Close, early or not, with routines or without, Close can run to its end exactly unless it was early and the flag was set before its second look |
| `Handshake.CanFinish` | consul/core.go:707-739 | the steps that take it there, under a decreasing measure |
| `Handshake.NobodyDelays` | consul/core.go:684-739 | once a routine has been told, every step of Close or of that routine brings the end nearer, and no step of another routine changes the distance |
| `Handshake.OthersEndIt` | consul/core.go:684-703 | when everything has come to rest after Close, the process has ended, by a crash or by `log.Fatal`, exactly if more routines were started, or refused a start, than Close freed: one, or none when Close was early |
| `Handshake.SettlesDown` | consul/core.go:684-703 | after Close every step but another Close uses something up |
| `Handshake.RestIsReached` | consul/core.go:684-739 | so rest is reached |
| `Handshake.CrashStillPossible` | consul/core.go:684-739 | once Close is done, a crash can still come exactly if more routines were started, or may be, than it freed, and no `log.Fatal` came first |
| `Handshake.FatalStillPossible` | consul/core.go:655-904 | once Close is done, a `log.Fatal` can still come exactly if a registration, a search for the service or a removal that was begun with the client is under way |
| `Handshake.OneLateRoutineCrashes` | consul/core.go:684-739 | a run in which a single routine that starts after an early Close crashes the process |
| `Handshake.SecondRoutineCrashes` | consul/core.go:684-739 | a run in which a Close that was not early leaves a second routine to crash it |
| `Handshake.StartsCounted` | consul/core.go:582-700 | over every run each accepted registration, the application's or a routine's own, starts just one routine |
| `Handshake.SignalsCounted` | consul/core.go:676-702 | the present flag is set exactly if a routine has begun, and each signal to Close is counted |
| `Handshake.ReRegisteredRoutineCrashes` | consul/core.go:582-700 | a run with one Register call and one re-registration after a failed update, in which the second routine crashes after Close |
| `Handshake.LongWay` | consul/core.go:786-827 | with a live client a deregistration may be refused by the agent, or pass it by, and go through the cluster |
| `Handshake.RefusedRoutineCrashes` | consul/core.go:808-826 | a run in which the agent refuses a routine after Close, and it crashes over the cluster search |
| `Handshake.SecondRoutineGivesUp` | consul/core.go:886-904 | a run in which the second routine ends the process by `log.Fatal` after Close instead |
| `Handshake.HungForever` | consul/core.go:723-734 | a Close that waits for End without having told anyone waits forever, unless a refused registration or a failed deregistration ends the process |
| `Handshake.HangsOnlyWhenEarly` | consul/core.go:710-734 | before Close is called in a live process, some run leads to such a Close exactly when no routine has set the present flag |
| `Handshake.EarlyGoesThrough` | consul/core.go:710-739 | an early Close that finds the flag still unset at its second look is done after exactly three more steps of its own, each enabled whatever the routines do, also with no routine at all |
| `Watch.Watcher.Handle` | consul/core.go:494-546 | the calls and the snapshot saved by one call, for every kind of data, nil slices included |
| `Watch.PutsAre` | consul/core.go:515-541 | the events of a comparison are exactly the pairs at reported positions, with their current values |
| `Watch.PutsInOrder` | consul/core.go:515-541 | each reported position is called out once, in the order of the list, and nothing else is |
| `Watch.EachKeyOnce` | consul/core.go:515-541 | so no key is called out twice by one comparison |
| `Watch.UpdatesAnnounced` | consul/core.go:502-541 | a key written since the saved snapshot is announced with its current value, however positions shifted, exactly if the snapshot is not nil and the key is not fresh before the saved length |
| `Watch.UntouchedAnnounced` | consul/core.go:525-541 | a key not written since is announced all the same exactly if it stands behind the saved length, or was changed after its creation and another key stood in its place |
| `Watch.UpdatesAnnouncedOverRuns` | consul/core.go:494-546 | the same for every period of every run of the server, nil listings of an emptied prefix included |
| `Watch.NilSwallowsAKey` | consul/core.go:502-505 | a run in which the only key goes and comes back: after a nil listing nothing is announced and the mirror stays wrong, after an empty list it is right |
| `Watch.AnnouncedIsCurrent` | consul/core.go:537-541 | only pairs of the current snapshot are announced |
| `Watch.OldIndexUntouched` | consul/core.go:525-534 | what bears an index from before has not been touched since, in every run of the server |
| `Watch.MirrorExact` | consul/core.go:502-543 | a mirror that equalled the saved snapshot equals the current one after the events exactly when no key vanished and no unannounced fresh key changed it, or, after a nil snapshot, exactly when the list is still empty |
| `Watch.MirrorOverRuns` | consul/core.go:494-546 | over a whole run, nil listings included, the mirror is right after every period exactly when that held in every period |
| `Watch.GrowthAtTheEndIsFollowed` | consul/core.go:525-529 | without removals, a key list that grows only at its end can be followed |
| `Watch.GrowthIsMirrored` | consul/core.go:494-546 | over every run without removals whose lists grow only at their ends, the mirror is right after every period |
| `Unicode.ExpandUnicodeRune` | kvltool/tool.go:34-40 | one escape becomes one to three bytes that decode to its code point; a surrogate panics |
| `Unicode.EscapeExpands` | kvltool/tool.go:27-40 | four hexadecimal digits in either case behind \u expand to the character they spell, and what follows by itself |
| `Unicode.MatchesAreSpelled` | kvltool/tool.go:27 | nothing else is a match |
| `Unicode.EncodeRune` | kvltool/tool.go:37-38 | the buffer, filled in place, holds the encoding of section 3 of RFC 3629 |
| `Utf8.FrontOfEncoded` | kvltool/tool.go:37-38 | an encoded code point is read back by the well-formedness rules of section 4 of RFC 3629, whatever follows |
| `Unicode.PanicsOnSurrogates` | kvltool/tool.go:29-40 | expansion panics exactly on a text with an escape that names a surrogate |
| `Unicode.ExpandedLength` | kvltool/tool.go:29-32 | the output is shorter by six minus the encoding's length for each escape of the text |
| `Unicode.ExpandKeepsValid` | kvltool/tool.go:29-40 | valid UTF-8 expands to valid UTF-8 |
| `Unicode.UnescapePanics` | kvltool/tool.go:43-46 | for any disjoint spans of the outer expression, unescaping panics exactly if a span holds an escape that names a surrogate |
| `Unicode.UnescapedLength` | kvltool/tool.go:43-46 | the output is shorter by what the escapes within the spans save |
| `Unicode.UnescapeKeepsValid` | kvltool/tool.go:43-46 | valid UTF-8 stays valid, even when a span cuts a character |
| `Unicode.SelectionMatters` | kvltool/tool.go:26-46 | the result is the expansion of the whole text exactly if no escape lies outside the spans, or one within panics |
| `Unicode.Convert` | etcd/core.go:278-288 | the loop writes control characters as escapes and the rest as they are |
| `Unicode.EscapedSpells` | etcd/core.go:281-282 | a control character is printed as its escape with upper-case digits |
| `Unicode.NoControlsPrinted` | etcd/core.go:280-282 | printed text holds no control character |
| `Unicode.PrintedAsIs` | etcd/core.go:280-285 | text is printed as it is exactly if it holds none |
| `Unicode.ExpandPrinted` | etcd/core.go:278-288 | expanding printed text gives the string with its own literal escapes expanded; no escape combines with what stands next to it |
| `Unicode.RoundTrip` | etcd/core.go:278-288 | printing and expanding gives a string back exactly when it spells out no literal escape |
| `Retry.WaitForResult` | consul/consul_util/consul_util.go:14-32 | the first success stops the retries and never calls fail; a wholly failing call makes 100 tries, sleeps 9427 ms and fails with the last error |
| `Retry.WaitedClosedForm` | consul/consul_util/consul_util.go:16-29 | the total wait of n failed tries, in closed form |
| `Retry.QueryServiceByID` | consul/consul_util/consul_util.go:126-146 | a record comes back exactly when one of the hundred tries met a matching id, and it is what the first such try found; where the folding merges nothing, an answer holds it under that very id |
| `Retry.FindExact` | consul/consul_util/consul_util.go:134-139 | then a look-up finds that very id or nothing |
| `Agent.ConsulRegistrar.Register` | consul/core.go:582-667 | an id found listed is left alone; otherwise it is registered under the given or generated id and gets one heartbeat routine, and the first such id becomes the store's service id; where the folding merges nothing that very id decides; a refused registration ends the process |
| `Agent.ConsulRegistrar.Tick` | consul/core.go:694-700 | a routine's tick changes nothing while a sound agent lists its id, and is another call of Register when it does not |
| `Agent.RoutineCount` | consul/core.go:598-700 | over any run of calls, and of services dropped by the agent, the routines of an id number exactly the calls made while it was unlisted: one for each drop, and one for its present listing |
| `Agent.RegistrationIdempotent` | consul/core.go:582-700 | while the agent drops nothing, any run of Register calls and failed updates leaves exactly one registration and one routine for every id called for |
| `Agent.DeregistrationLasts` | consul/core.go:694-700 | after a deregistration of a listed id, until the next one, it is listed again and has one more routine exactly if a call or a tick for it came |
| `Agent.Contains` | consul/consul_util/consul_util.go:256-263 | true exactly when an entry has the id, up to case, or that very id where the folding merges nothing |
| `Agent.DeregisterService` | consul/core.go:936-975 | the services left are exactly those all of whose catalog rows are spared; a failed query ends the process with nothing removed, a refusal of the agent ends it with the rows before it treated so |
| `Agent.LeftExactlySpared` | consul/core.go:954-974 | with distinct ids a service is left exactly when not `all`, listed as passing, and at another address or port; with `all` none is |
| `Agent.DeregisterServiceFast` | consul/core.go:886-907 | removes what the first successful try puts first among the services of that name, up to case, unless the agent refuses, which it reports; ends the process after a hundred tries |
| `Agent.FastRemovesTheRightOne` | consul/core.go:894-899 | it takes the intended instance, whatever the map order, exactly when no other service at the agent bears the name |
| `Agent.ConsulRegistrar.Deregister` | consul/core.go:786-827 | without address or port every catalogued instance goes; otherwise the service name alone decides, whatever id, address and port say; after a refusal by the agent the cluster way leaves exactly the spared services; and it ends without an agent or with the process where the source does |

## Left out

- TLS, connection set-up, prompts and the `New` dispatchers: they only reach foreign libraries.
- The insides of etcd, Consul and the YAML encoder: a map with leases, an agent table and an opaque document stand for them.
- A request that fails after the server has applied it: a refused request changes nothing in the model.
- Lease expiry in the key-space runs: `EtcdRuns` keeps a leased key until it is overwritten or deleted; expiry is the subject of `Lease.dfy` alone.
- The outer expression `reFind`: its matches are an arbitrary list of disjoint spans.
- IPv6 addresses, negative ports and Go strings that are not valid UTF-8 (`convert` turns those into U+FFFD).
- EtcdStore.KVStoreEtcd.Register: records the heartbeat it starts; when its turns (`Beat`) come is the subject of `Lease.dfy`, which has a clock of its own.
- Handshake.FinishesUnlessDoomed: says that Close can still finish; that runnable goroutines do get to run is Go's promise and is not stated. Before the hand-over any routine may keep Close waiting by updating first.
- Agent.ConsulRegistrar.Deregister: the search for another agent in the cluster (`opThatClient`) is a parameter that tells whether it reaches one.
- Lease: negative ttl values, which the source's int64 admits; a lease of no length is not what the loop is for.
- Consul transactions, which give several keys one modification index: every change takes the next one.
- Concurrent calls of Close, and a Register call of the application that comes upon the client only after Close has dropped it.
- etcd `NameResolver`, `NameResolverAll`, `Exists`, `GetPrefix`, `GetYaml`, `Watch`, and Consul's `PutTTL`, `LockObject` and `Watch`: shallow, or they do not read what `Register` writes.
