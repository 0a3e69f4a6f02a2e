# Verified model of the kite micro-service library

A Dafny 4.11 model of the parts of kite whose correctness is hard to see by reading
one function. `dafny verify dfyconfig.toml` checks all of it. Times are integers in
nanoseconds; unbounded integers stand for Go's, and widths are written out where they
matter (decimal identifiers, `ParseUint`, float64).

| part | modules | main results |
|---|---|---|
| dnode: callbacks in arguments | `DnodeScrub`, `DnodeReach`, `DnodeReceiver`, `DnodeRoundTrip`, `DnodeMessage`, `DnodePartial` | `ScrubExactly`, `RoundTrip`, `StagedRoundTrip` |
| calls and replies | `Calls` | `AlwaysCorrelated`, `AddressedExactly`, `NeverReused` |
| Kontrol's lease over a websocket | `Intervals`, `OnceEvery`, `WsLease` | `LeaseExactly` |
| Kontrol's lease over HTTP | `HttpHeartbeat`, `HttpLease`, `HttpLeaseBound`, `HttpEviction` | `AlwaysSafe`, `StoreAlwaysFollows`, `GoneInTime`, `HttpLeaseBound.LeaseExactly`, `HttpEviction.EvictionExactly` |
| tokens | `TokenCache`, `TokenEviction`, `TokenRenewer` | `AlwaysFresh`, `TokenEviction.EvictionExactly`, `NeverQuietExactly`, `FailureRetried` |
| names, keys, queries, audiences | `KiteName`, `KiteIndex`, `KiteStore`, `KiteFilter` | `ParseAfterPrint`, `KiteFilter.Get`, `AudienceExactly` |
| key pair cache | `KeyCache`, `KeyRace` | `Drive`, `LookupsStep`, `FleetingStep` |
| SockJS sessions | `SockJs`, `FrameReader` | `ReceivedExactly`, `Drain`, `DrainXhr`, `Serve` |
| handler chain | `HandlerChain`, `HandlerServing` | `ServeKite`, `OneReplyEach` |

`Wrappers` and `Text` hold options, results and the string operations used throughout.

Code that changes state in place is a class or a method with loops, each proved against
a specification function; concurrent code is a state machine whose steps are the atomic
actions of the goroutines and timers, and theorems range over every run of it.

## What the code does and does not do

Where the code does less than its comments say, the model follows the code:

- The response callback of a call is never removed from the table: `sendCallbackID`
  looks for the string "0" where Scrub puts the number 0 (`Calls.ResponseNeverRemoved`).
- A waiting call never gets the disconnect error: it holds the mutex under which the
  channel is closed, and afterwards the channel is nil (`Calls.Inv`, in `Calls.AlwaysCorrelated`).
- An identifier comes back from a JSON number unchanged up to 2^53, and beyond iff it is
  a multiple of the spacing of float64 values there (`Calls.FloatExactly`). A reply to an
  identifier that does not come back can reach another call (`Calls.MisdeliveryOccurs`).
- Inside the arguments, a pointer to a `Function` that is set makes Scrub panic, like a bare
  function and a function received from the other side (`DnodeReach.PanicsExactly`). At the
  top Scrub does not walk pointers, interfaces and functions at all.
- A `Function` or list embedded in a struct is sent with the path of the struct, which no
  struct receiver takes (`DnodeReceiver.StructRefuses`).
- A heartbeat that resets an HTTP timer while its function waits for the mutex leaves a
  timer armed that later removes the entry of the kite's next registration
  (`HttpEviction.ResetRaceEvicts`). Exactly the entries without such a leftover are safe
  from it (`HttpEviction.EvictionExactly`). The stored record survives all the same.
- A kite that registers when the timer function of its entry has begun loses the entry.
  Its record lasts until the kite is due again iff HeartbeatInterval + HeartbeatDelay is
  at most KeyTTL, which is one half of `HttpLeaseBound.LeaseExactly`.
- A token timer that had begun when its entry was replaced deletes the newer entry, and
  leaves that entry's timer to delete a third one (`TokenEviction.StaleDelete`). Exactly
  the entries whose key has no other live timer are safe (`TokenEviction.EvictionExactly`);
  tokens handed out are fresh in any case.
- The renewer can miss its first signal and then wait forever exactly when it begins
  within thirty seconds of the expiry of its token (`TokenRenewer.NeverQuietExactly`).
- The interval constants meet the lease bound with equality; one nanosecond less and
  there is a run on which a timely kite lapses (`WsLease.ShippedIntervals`).
- Deleting a key pair with its public key given leaves a stale public entry in the cache
  (`KeyCache.LookupsStep` says exactly when).
- The XHR transport drops an empty 'm' message (`SockJs.TransportsAgree`), and
  `frameReader` swallows a first byte of zero (`FrameReader.Serve`).
- A username that equals the ID of a stored kite can neither be registered nor found, and
  deleting a kite whose ID equals a username deletes all kites of that user
  (`KiteStore.KiteFits`, `KiteStore.IdIsNoUser`, `KiteStore.Etcd.DropId`).
- Kites returned for a query that gives environment or name but no username reject the
  token issued for it (`KiteFilter.ReturnedKitesAccept`, `KiteFilter.NameAloneRejected`).
- A slash in a query field splits it: the query for username "a/b" finds the kites of user
  a in environment b (`KiteFilter.Get` speaks of the components of the key).
- A lookup that has read a row and is overtaken by the deletion of the key caches the
  deleted key for good (`KeyRace.LookupOvertaken`); exactly such late fills do harm
  (`KeyRace.FleetingStep`).

## Model

| member | source | states |
|---|---|---|
| `DnodeScrub.Append` | dnode/scrub.go:47-54 | Go's append on a shared backing array: the result is the old prefix and the new element, in the same array while there is room, and the shared prefix is untouched |
| `DnodeScrub.Scrubber.Scrub` | dnode/scrub.go:15-26 | only arrays, slices, structs and maps are walked; counter, table and message afterwards are those of numbering, in order, the callbacks of the walk, also when the walk panics half-way |
| `DnodeScrub.Scrubber.Collect` | dnode/scrub.go:30-68 | the walk over one value with its path in a shared buffer records what the walk by value records, and gives the buffer back with its prefix unchanged |
| `DnodeScrub.Scrubber.Members` | dnode/scrub.go:41-64 | the same for a struct: its fields, then the methods of the value or of the pointer |
| `DnodeScrub.Scrubber.Fields` | dnode/scrub.go:71-103 | the same for the fields of a struct: skipped, embedded, renamed by tag |
| `DnodeScrub.Scrubber.Methods` | dnode/scrub.go:106-119 | the same for the methods of a struct, under their names with a lower-case first letter |
| `DnodeScrub.Scrubber.Elems` | dnode/scrub.go:47-50 | the same for the elements of a slice, although siblings overwrite one buffer |
| `DnodeScrub.Scrubber.Entries` | dnode/scrub.go:51-54 | the same for the entries of a map |
| `DnodeScrub.Scrubber.Register` | dnode/scrub.go:123-143 | a callback gets the next identifier and a copy of its path; a nil callback gets nothing |
| `DnodeScrub.RecordedTable` | dnode/scrub.go:128-142 | new identifiers are exactly the next consecutive block, each holds its own slot's callback, all earlier table entries stay |
| `DnodeScrub.RecordedMsg` | dnode/scrub.go:136-142 | the message gives each identifier of the block the path of its own slot |
| `DnodeScrub.RecordedMsgOnly` | dnode/scrub.go:136-142 | the message names nothing else |
| `DnodeScrub.RecordedConcat` | dnode/scrub.go:123-143 | recording two walks one after the other is recording their concatenation |
| `DnodeReach.PanicsExactly` | dnode/scrub.go:30-68 | collect panics iff the value holds a bare function, a received function or a pointer to a set Function, at any depth |
| `DnodeReach.CollectedExactly` | dnode/scrub.go:30-119 | a path and callback are recorded iff following that path from the value leads to that callback |
| `DnodeReceiver.Receiver.SetCallback` | dnode/unscrub.go:31-106 | the loop over value and path index terminates and has the effect and the outcome (done, error, panic) of the recursive definition; on failure nothing is written |
| `DnodeReceiver.Receiver.SetAll` | dnode/partial.go:34-52 | pending callbacks are installed in order, up to the first failure |
| `DnodeReceiver.InstallAllConcat` | dnode/partial.go:34-52 | installing two lists one after the other is installing their concatenation |
| `DnodeReceiver.PlaceStep` | dnode/unscrub.go:33-106 | moving one child down reads that child, and writing there is writing the parent with that child replaced |
| `DnodeReceiver.StructRefuses` | dnode/unscrub.go:75-95 | a struct takes no callback at its own path or under an empty name, where it panics, and none at an index, which is an error |
| `DnodeReceiver.SliceIndex` | dnode/unscrub.go:35-56 | an index into a slice given as a number, fractions cut off towards zero, or as a decimal string goes to that child and no other |
| `DnodeReceiver.SliceRefuses` | dnode/unscrub.go:35-56 | a path that ends at a slice and a string that is no decimal number are errors; a number outside the slice and an element of another type panic |
| `DnodeReceiver.SliceOutside` | dnode/unscrub.go:43-55 | a decimal string outside the slice panics |
| `DnodeReceiver.StructField` | dnode/unscrub.go:88-95 | a field is found under its name and under its name with a lower-case first letter, and nothing but that field is changed |
| `DnodeReceiver.NothingToSet` | dnode/unscrub.go:57-105 | scalars are an error; plain functions, nil pointers and interfaces, and missing fields and keys leave the value as it is |
| `DnodeReceiver.CannotWrite` | dnode/unscrub.go:57-86 | what is not addressable, a nil map of interfaces and a key that is no string panic; a path that ends at a map is an error |
| `DnodeRoundTrip.RouteAll` | dnode/unscrub.go:41-104 | installing a list on a slice, map or struct is installing, child by child, that child's part of the list |
| `DnodeRoundTrip.GrowAll` | dnode/unscrub.go:57-66 | installing a list on a map of interfaces changes each old entry by its own part of the list, in place, and adds exactly the missing keys, each once and with its own caller |
| `DnodeRoundTrip.FillAll` | dnode/unscrub.go:31-106 | installing callbacks that cover a tree, in any order, succeeds on every receiver that fits it and fills exactly the callback positions; a map of interfaces gains exactly the missing callback names |
| `DnodeMessage.WalkIsSkeleton` | dnode/scrub.go:30-119 | the walk finds the callbacks of the value's tree, embedded structs merged, in order |
| `DnodeMessage.FlattenDistinct` | dnode/scrub.go:30-119 | with distinct (promoted) names at each level no two recorded callbacks share a path: each is recorded once |
| `DnodeMessage.ScrubExactly` | dnode/scrub.go:15-143 | for every value that Scrub does not refuse: a callback is sent under a new identifier iff the value is an array, slice, struct or map and the callback is reachable by its path, under exactly one when names are distinct; new identifiers are the next consecutive block and earlier table entries are untouched |
| `DnodeMessage.FieldSent` | dnode/scrub.go:71-103 | an exported field with a callback is sent under the name in its JSON tag without the options, under its own name when the tag gives none, and not at all when the JSON name or the dnode tag is "-" |
| `DnodeMessage.EmbeddedSent` | dnode/scrub.go:71-103 | an unexported field is not sent; an embedded one, exported or not, is sent with the path of the struct |
| `DnodeMessage.MethodSent` | dnode/scrub.go:106-119 | a method is sent under its name with the first letter in lower case, one with a pointer receiver only from behind a pointer |
| `DnodeMessage.TopSent` | dnode/scrub.go:15-26 | at the top a Function alone is sent with the empty path, and nothing behind a pointer or interface |
| `DnodeMessage.FlattenAt` | dnode/scrub.go:47-54 | a slot is recorded iff its path on the wire leads to its callback |
| `DnodeMessage.Unscrub` | dnode/unscrub.go:10-29 | panics unless it is given a pointer; the loop over the callbacks field, in any order of its keys, ends at the first bad key or failing callback |
| `DnodeMessage.BadKeyFails` | dnode/unscrub.go:15-28 | a key that is no number ends it with an error, wherever it comes |
| `DnodeMessage.UnscrubIsInstall` | dnode/callback.go:78-92 | unscrubbing directly and collecting the entries as pending callbacks first come to the same |
| `DnodeMessage.Assignment` | dnode/scrub.go:123-143 | the path of every callback has one identifier, the table holds that callback under it, and the message gives the identifier that path |
| `DnodeMessage.KeyAssigned` | dnode/callback.go:80-90 | each key of a message parses to the identifier assigned to its path |
| `DnodeMessage.SentCovers` | dnode/scrub.go:123-143 | the entries of a message, in any order, reach all callbacks of the value and nothing else |
| `DnodeMessage.RoundTrip` | dnode/unscrub.go:10-106 | scrub, send, unscrub: for every sendable value and pointer to a fitting receiver, in any order of the entries, each Function slot ends with the caller for exactly the identifier under which the sender keeps that slot's callback; all else is unchanged; on anything but a pointer it panics |
| `DnodePartial.Commute` | dnode/unscrub.go:82-86 | postponing a callback in a Partial and unmarshalling later gives what one walk through the typed value gives, for any nesting of Partials |
| `DnodePartial.Staged` | dnode/partial.go:34-52 | the same for any list of callbacks, and one way fails iff the other does |
| `DnodePartial.InstallPlaced` | dnode/unscrub.go:82-86 | installing a callback neither deepens nor moves Partials |
| `DnodePartial.FreshSettles` | dnode/partial.go:34-52 | unmarshalling with nothing postponed gives the typed value |
| `DnodePartial.StagedRoundTrip` | dnode/callback.go:78-92 | the round trip when the whole of the arguments is one Partial that the handler takes apart in stages |
| `Calls.IdSurvives` | client.go:514-516 | an identifier survives decimal string, uint64, JSON number, float64 and back for all values up to 2^53 |
| `Calls.FloatExactly` | client.go:514-516 | beyond, exactly the multiples of the float64 spacing survive; 2^53 + 1 does not |
| `Calls.ResponseNeverRemoved` | client.go:922-944 | no path that Scrub emits is the one sendCallbackID looks for |
| `Calls.InvStep` | client.go:753-834 | every step keeps: identifiers belong to one call each, at most one response per call, the address of a delivered reply is that call's identifier once it has been a float64, no disconnect error is delivered |
| `Calls.AlwaysCorrelated` | client.go:753-834 | so in every state of every run of calls, replies, duplicate and late replies, send errors, timeouts, hang-ups and redials |
| `Calls.ReplyArrives` | client.go:949-965 | a reply whose address is the identifier of a call goes into the channel of that call if it is empty, whatever its waiter does, and changes nothing else |
| `Calls.ReplyBlocks` | client.go:958-965 | a reply for which there is no such channel changes nothing |
| `Calls.WaiterHandsOut` | client.go:786-830 | a waiter that has its turn can hand out the reply that has come, the send error or the timeout, hands out exactly that, and frees the mutex; other calls are untouched |
| `Calls.WaiterStarts` | client.go:785-789 | a queued waiter gets its turn when the mutex is free, and a failed send is seen by its call |
| `Calls.HangUpWouldShow` | client.go:798-805 | a waiter that selects on a closed channel can hand out the disconnect error: only the mutex excludes it |
| `Calls.CallStarts` | client.go:753-775 | a call whose message is not sent ends at once with the send error, any other waits; its identifier follows those of the callbacks before it |
| `Calls.ChannelsComeAndGo` | client.go:388-415 | a hang-up closes the present channel for good, a redial makes an open one |
| `Calls.AddressedExactly` | client.go:514-525 | over every run a delivered reply was addressed to that call's own identifier iff its address is a multiple of the float64 spacing there, so always up to 2^53 |
| `Calls.MisdeliveryOccurs` | client.go:514-525 | a run in which the reply addressed to identifier 2^53 + 1 is delivered to the call with identifier 2^53 |
| `Calls.NeverReused` | client.go:949-1000 | what a state has given out every later state keeps, and new calls get identifiers not given out before |
| `OnceEvery.Limiter.Do` | kontrol/onceevery/onceevery.go:28-44 | a call runs iff there was no run or the last one is more than an interval ago |
| `OnceEvery.Spacing` | kontrol/onceevery/onceevery.go:28-44 | over any ordered calls, runs are more than an interval apart and a call that does not run has a run at most an interval before it |
| `WsLease.InvStep` | kontrol/handlers.go:92-143 | every step keeps: one updater unless the flag is set, no write outlives its lease, the record is gone one TTL after the last heartbeat |
| `WsLease.InvAlways` | kontrol/handlers.go:92-143 | so in every run, however late heartbeats are |
| `WsLease.HandlerCompletes` | kontrol/handlers.go:122-143 | a heartbeat leaves a ping and no flag behind, and starts an updater and adds the record again iff the flag was set |
| `WsLease.UpdaterChooses` | kontrol/handlers.go:96-116 | an updater may take a ping while a heartbeat is handled, and may give up although a ping is waiting |
| `WsLease.CoveredStep` | kontrol/handlers.go:92-143 | with the interval bound and timely heartbeats, every step keeps the record covered until the next heartbeat is due |
| `WsLease.RestartCovers` | kontrol/handlers.go:132-141 | registration covers the record, and so does every restart of the updater |
| `WsLease.LeaseHolds` | kontrol/handlers.go:82-143 | from registration or restart on the record is live at every instant while heartbeats are less than a window apart |
| `WsLease.Lapse` | kontrol/kontrol.go:39-54 | with a shorter TTL there is a run of timely heartbeats on which the record lapses |
| `WsLease.LeaseExactly` | kontrol/kontrol.go:39-54 | the record never lapses iff UpdateInterval + HeartbeatInterval + HeartbeatDelay is at most KeyTTL |
| `WsLease.ShippedIntervals` | kontrol/kontrol.go:39-54 | the shipped constants meet the bound with equality and cannot be lowered |
| `HttpHeartbeat.SafeStep` | kontrol/http.go:24-40 | every step keeps the table safe |
| `HttpHeartbeat.AlwaysSafe` | kontrol/http.go:148-222 | in every interleaving no updateC is closed twice, no send hits a closed one, each entry is open with a live updater while Kontrol is open, each updater not stopped has an armed or pending timer |
| `HttpHeartbeat.TrackedStep` | kontrol/http.go:151-203 | every step keeps: an updater holds the value of the last registration of its entry to leave the critical section |
| `HttpHeartbeat.AlwaysNewest` | kontrol/http.go:151-203 | over every run, every write of an updater carries the value of the last registration of its entry that left the critical section before it |
| `HttpHeartbeat.StoreStep` | kontrol/http.go:175-188 | every step changes the store as it should: a write puts the value of the last registration of its entry under the ID of that entry, a registration its own value under its own ID, with a TTL from now, and nothing else changes any record |
| `HttpHeartbeat.StoreAlwaysFollows` | kontrol/http.go:140-203 | so over every run |
| `HttpHeartbeat.RegisterTakes` | kontrol/http.go:148-171 | a registration of a kite without entry makes one for its value; one with an entry keeps it and holds the mutex until its value is taken |
| `HttpHeartbeat.SendingEnds` | kontrol/http.go:156-162 | the mutex stays held, and the table as it is, until the updater has received the value |
| `HttpHeartbeat.SendsHitOpen` | kontrol/http.go:158-162 | in a safe state a registration that holds the mutex can hand its value over while Kontrol is open, and never meets a closed channel |
| `HttpHeartbeat.TickWrites` | kontrol/http.go:183-188 | a running updater writes on each tick, whoever holds the mutex, and uses the tick up |
| `HttpHeartbeat.FaultsShow` | kontrol/http.go:212-216 | a send on a closed channel and a second closing would show in the state |
| `HttpHeartbeat.ShutdownStops` | kontrol/http.go:181-182 | closing Kontrol lets every updater stop and does nothing else |
| `HttpLease.BoundedStep` | kontrol/http.go:174-219 | every prompt step keeps the bounds on timers and expiry times in terms of the last contact |
| `HttpLease.GoneInTime` | kontrol/http.go:148-222 | in every run of prompt goroutines no record outlives the last contact of its kite by more than HeartbeatInterval + HeartbeatDelay + KeyTTL |
| `HttpEviction.CleanStays` | kontrol/http.go:203-219 | every step but its own timer function keeps an entry whose ID has no leftover timer, and leaves none |
| `HttpEviction.LeftoverEvicts` | kontrol/http.go:203-219 | with a leftover timer there is a run that loses the entry although its own timer function does not run |
| `HttpEviction.EvictionExactly` | kontrol/http.go:203-219 | over all runs without its own timer function the entry stays, iff no other heartbeat object of its ID has a timer armed or firing |
| `HttpEviction.ResetRaceEvicts` | kontrol/http.go:24-40 | leftovers occur: from the initial state a run in which a kite heard from a nanosecond ago loses its entry |
| `HttpLease.TicksStep` | kontrol/http.go:172-188 | every prompt step keeps the ticker of each open heartbeat object on time until its timer function begins |
| `HttpLease.RegisterCovers` | kontrol/http.go:140-222 | every registration, with or without an entry, leftover timers or a timer function under way, covers the record |
| `HttpLease.GuardedStep` | kontrol/http.go:148-222 | every prompt step keeps a record covered by an open heartbeat object that need not be in the table; a new registration takes over as guard |
| `HttpLease.FadingStep` | kontrol/http.go:203-219 | and one left without a guard until the kite is due to be heard from again |
| `HttpLease.CoveredStep` | kontrol/http.go:148-222 | every prompt step keeps the record covered while the kite is heard from |
| `HttpLease.LeaseHolds` | kontrol/http.go:148-222 | while the kite is heard from less than a window apart its record is live at every instant, whatever timers of earlier registrations do to its entry |
| `HttpLease.RegisteredStaysLive` | kontrol/http.go:140-222 | in every prompt run from Kontrol's start, once a kite has registered, first or again, its record is live at every later instant while it is heard from |
| `HttpLeaseBound.LapseUnwritten` | kontrol/kontrol.go:39-54 | with UpdateInterval at least KeyTTL a run on which a timely kite lapses |
| `HttpLeaseBound.LapseOrphaned` | kontrol/http.go:203-219 | with HeartbeatInterval + HeartbeatDelay above KeyTTL a run on which a timely kite lapses after registering beside a timer function |
| `HttpLeaseBound.LeaseExactly` | kontrol/kontrol.go:39-54 | no record of a kite that is heard from ever lapses, iff UpdateInterval is below KeyTTL and HeartbeatInterval + HeartbeatDelay is at most KeyTTL |
| `HttpLeaseBound.ShippedIntervals` | kontrol/kontrol.go:39-54 | the shipped constants keep the HTTP lease |
| `TokenCache.Kontrol.CacheToken` | kontrol/kontrol.go:543-556 | the replaced entry's timer is stopped if it has not begun, and the new entry gets a timer for TTL less leeway |
| `TokenCache.Kontrol.GenerateToken` | kontrol/kontrol.go:560-607 | fails iff nothing is cached or it is forced, and signing fails; otherwise hands out the cached or newly signed token |
| `TokenCache.SignedFresh` | kontrol/kontrol.go:582-597 | whole-second rounding leaves a token valid for more than twice the leeway less a second at any time up to TTL less leeway after signing |
| `TokenCache.SignedBounds` | kontrol/kontrol.go:582-597 | exp is the last whole second within TTL and leeway of signing; nbf is there iff it is not turned off, and is the last whole second before signing less the leeway |
| `TokenCache.InvRequest` | kontrol/kontrol.go:560-607 | a request keeps the cache invariant |
| `TokenCache.InvStep` | kontrol/kontrol.go:543-607 | so does every step, timers that have begun included |
| `TokenCache.AlwaysFresh` | kontrol/kontrol.go:543-607 | in every run every token handed out, cached or new, forced or not, has nbf in the past and expires more than twice the leeway less a second later |
| `TokenCache.UnforcedReturnsLatest` | kontrol/kontrol.go:566-570 | an unforced request returns the latest token signed for its cache key while the entry is there |
| `TokenEviction.AlwaysRegular` | kontrol/kontrol.go:543-607 | in every run timers are set in the order of their deadlines and the timer of an entry is the last one of its key |
| `TokenEviction.CleanStep` | kontrol/kontrol.go:543-556 | every step but the own timer function and a forced request keeps an entry whose key has no other live timer, and leaves none |
| `TokenEviction.RequestLeaves` | kontrol/kontrol.go:543-556 | a request that signs leaves the new entry so iff the replaced timer had not begun and all others of the key are over |
| `TokenEviction.ForcedLeaves` | kontrol/kontrol.go:544-546 | a forced request for such an entry leaves the new one so iff the timer function of the old one had not begun |
| `TokenEviction.EvictionExactly` | kontrol/kontrol.go:543-607 | over all runs without its own timer function and without a forced request for its key a cached token stays, iff no other timer of the key is armed or has begun |
| `TokenEviction.StaleDelete` | kontrol/kontrol.go:550-555 | a run in which a timer that had begun deletes a newer entry |
| `TokenRenewer.PositiveDelay` | tokenrenewer.go:111-113 | every successful renewal leaves a positive delay |
| `TokenRenewer.InvStep` | tokenrenewer.go:74-109 | every step keeps: when the loop waits, the last attempt reported no kites, or a timer is pending within ten seconds or thirty seconds before the token obtained last expires |
| `TokenRenewer.FirstSignalLost` | tokenrenewer.go:127-133 | a loop that begins within thirty seconds of expiry can lose its first signal and wait with no timer |
| `TokenRenewer.NeverQuietExactly` | tokenrenewer.go:74-133 | over every run and its steps, whenever the loop waits the last attempt reported no kites or a timer is pending in time, iff the loop begins more than thirty seconds before expiry |
| `TokenRenewer.RetryingStep` | tokenrenewer.go:94-102 | every step but an attempt keeps: since the failure the loop sleeps a second and then has a timer due at the latest eleven seconds after it |
| `TokenRenewer.FailureRetried` | tokenrenewer.go:94-102 | so over every run, from any failed attempt to the next attempt |
| `TokenRenewer.RetryRound` | tokenrenewer.go:94-102 | a failure, its sleep, its timer and the signal lead to the next attempt eleven seconds later with nothing left behind |
| `TokenRenewer.SignalsWake` | tokenrenewer.go:82-133 | signals may come at any time; one that finds the loop waiting makes it renew, also after no kites were found, and any other is lost |
| `TokenRenewer.ShippedRoom` | kontrol/kontrol.go:504-518 | Kontrol's defaults leave room for a latency of nine minutes |
| `TokenRenewer.FreshIsIssued` | tokenrenewer.go:144-165 | Kontrol's freshness bound is the validity the renewer needs |
| `KiteName.StringIsJoin` | protocol/protocol.go:45-53 | the printed kite is its seven fields joined by slashes after a slash |
| `KiteName.ParseAfterPrint` | protocol/protocol.go:95-112 | parsing the printed kite gives it back iff the first six fields hold no slash |
| `KiteName.PrintAfterParse` | protocol/protocol.go:95-112 | printing the parsed string gives it back iff it starts with a slash and has at least seven |
| `KiteName.ParseRefuses` | protocol/protocol.go:95-112 | exactly the strings that start with a slash are parsed |
| `KiteName.ParsedFields` | protocol/protocol.go:95-112 | a string of fewer than seven fields sets the first ones in order and leaves the others empty |
| `KiteName.ValidateExactly` | protocol/protocol.go:81-92 | Validate accepts exactly the kites with slash-free fields and the first six set |
| `KiteName.ValidateKiteKey` | kontrol/etcd.go:300-316 | validateKiteKey, in any order of the fields, accepts exactly the kites with seven set and slash-free fields |
| `KiteName.KeyCodec` | kontrol/node.go:69-85 | KiteFromKey on the stored key gives that kite, or an error iff a field holds a slash |
| `KiteIndex.GetQueryKey` | kontrol/etcd.go:339-372 | succeeds iff the username is set and no set field follows an unset one; the key is the set fields joined |
| `KiteIndex.ComponentsOfJoin` | kontrol/etcd.go:339-372 | the components of such a key are the set fields |
| `KiteIndex.FlattenNode` | kontrol/node.go:33-45 | the recursive loop returns all leaves below a directory in order, and nothing for a leaf |
| `KiteIndex.LookupIsPrefix` | kontrol/node.go:33-45 | the leaves under a key are exactly the leaves of the tree whose path starts with the key, in order |
| `KiteIndex.LeafIffLookup` | kontrol/node.go:33-45 | a path and value are among the leaves iff looking the path up finds that value |
| `KiteStore.PutLeaf` | kontrol/etcd.go:102-138 | setting a leaf changes that leaf and no other |
| `KiteStore.RemoveLeaf` | kontrol/etcd.go:78-89 | deleting removes the leaves at or below a path and no other |
| `KiteStore.PutExactly` | kontrol/etcd.go:113-125 | setting a leaf fails iff the path runs through a leaf or names a directory |
| `KiteStore.PutDir` | kontrol/etcd.go:113-125 | setting a leaf makes no directories but those on its path |
| `KiteStore.KiteFits` | kontrol/etcd.go:113-125 | a kite's own key can be set iff its username is not the ID of a stored kite |
| `KiteStore.IdFits` | kontrol/etcd.go:127-137 | its ID key can be set iff the ID names no directory |
| `KiteStore.IdIsNoUser` | kontrol/etcd.go:127-137 | a username that is the ID of a stored kite has no kites and nothing below its key |
| `KiteStore.FlattenDistinct` | kontrol/node.go:33-45 | no leaf is listed twice |
| `KiteStore.SelectQuery` | kontrol/postgres.go:334-361 | refused iff no field is set; a kite satisfies the conjunction built iff every set field equals its own |
| `KiteStore.MatchIsPrefix` | kontrol/postgres.go:334-361 | without gaps, matching field by field is having the set fields as prefix |
| `KiteStore.BelowKey` | kontrol/etcd.go:231-236 | prefix lookup finds exactly the stored kites that have the prefix |
| `KiteStore.KitesOf` | kontrol/node.go:96-111 | reading nodes as kites fails iff one of them has no kite's key, and otherwise reads each |
| `KiteStore.EntriesExact` | kontrol/node.go:96-111 | the entries under a key, read as kites, are exactly the stored kites that have its components as prefix, each once |
| `KiteStore.QueryAnswered` | kontrol/etcd.go:231-265 | reading the leaves under any key gives the stored kites below it, or an error: there are none, or the key is the root and holds ID keys |
| `KiteStore.PathMatches` | kontrol/etcd.go:339-372 | for a gap-free query without slashes the components of the key are the set fields, and being below the key is matching every set field |
| `KiteStore.Etcd.Add` | kontrol/etcd.go:102-138 | succeeds iff the username is not a stored ID, differs from the ID, and the ID names no directory; the tree then holds the kite under its fields and under its ID; a failure in between leaves only the first |
| `KiteStore.Etcd.Drop` | kontrol/etcd.go:78-89 | the kite and nothing else goes |
| `KiteStore.Etcd.DropId` | kontrol/etcd.go:84-88 | the ID key goes, with all kites whose username it is, and nothing else |
| `KiteStore.Etcd.Fetch` | kontrol/etcd.go:231-258 | fails on a gap or a missing username; otherwise reads the stored kites below the components of the key, whatever slashes the query holds, each once |
| `KiteFilter.RestExactly` | kontrol/kites.go:45-59 | the string test on trimmed keys accepts a stored kite iff the given components but the last are equal and the last is a prefix |
| `KiteFilter.Filter` | kontrol/kites.go:34-43 | Filter keeps the accepted kites in order |
| `KiteFilter.KeptExactly` | kontrol/kites.go:34-59 | a stored kite is kept iff its version is accepted and its key goes on as the query's does |
| `KiteFilter.Get` | kontrol/etcd.go:191-273 | refused before the store is asked when the username is missing, there is a gap, or the version is malformed; otherwise exactly the stored kites below the key, filtered when the version is a constraint and the key is not that of one kite; for queries without slashes exactly the matching kites, or with a constraint the qualifying ones; an error only when there are none |
| `KiteFilter.ReturnedIsWanted` | kontrol/etcd.go:205-229 | for queries without slashes a stored kite is returned iff its fields equal every set field, or with a version constraint iff username, environment and name are equal, its version is accepted and the rest of its key matches |
| `KiteFilter.Shuffle` | kontrol/kites.go:24-32 | the shuffled list has the same multiset |
| `KiteFilter.PermutedSame` | kontrol/kites.go:24-32 | writing each element to its place under a permutation keeps the multiset |
| `KiteFilter.AudienceExactly` | request.go:412-442 | a kite accepts the audience of a query iff the query names neither username nor environment nor name, or usernames are equal and environment and name are each equal or unset in the query |
| `KiteFilter.ReturnedKitesAccept` | kontrol/etcd.go:374-382 | a stored kite that matches a query accepts the token issued for it iff the query has a username, or neither environment nor name |
| `KiteFilter.NameAloneRejected` | kontrol/postgres.go:334-361 | every kite that matches a query for a name alone rejects its token |
| `KiteFilter.QualifiedKitesAccept` | kontrol/etcd.go:374-382 | every kite that a query with a version constraint asks for accepts its token |
| `KeyCache.CachedStorage.MemDelete` | kontrol/keypair.go:95-107 | deletes by ID; the public entry goes only when no public key is given |
| `KeyCache.CachedStorage.AddKey` | kontrol/keypair.go:159-165 | refused when invalid or when id, public or private clash with any row, deleted ones included; otherwise the row and both cache entries are there |
| `KeyCache.CachedStorage.DeleteKey` | kontrol/keypair.go:167-173 | soft-deletes the row and drops the cached key; reports an error for an ID that is not cached |
| `KeyCache.CachedStorage.GetKeyFromID` | kontrol/keypair.go:175-191 | gives what the backend gives, error included, and caches it |
| `KeyCache.CachedStorage.GetKeyFromPublic` | kontrol/keypair.go:193-209 | gives the cached key, else what the backend gives, and caches it |
| `KeyCache.CachedStorage.IsValid` | kontrol/keypair.go:211-217 | holds iff the public key is cached or live in the backend |
| `KeyCache.CachedStorage.Find` | kontrol/postgres.go:432-472 | the row search gives the one row of the public key |
| `KeyCache.CachedStorage.Perform` | kontrol/keypair.go:85-217 | one operation of any kind: table, caches and answer |
| `KeyCache.RowsAlone` | kontrol/keypair.go:159-173 | the table after a run does not depend on what was cached or evicted |
| `KeyCache.SoundStep` | kontrol/keypair.go:85-217 | every operation and eviction keeps what is cached by ID right |
| `KeyCache.LookupsStep` | kontrol/keypair.go:85-217 | every operation and eviction keeps public-key lookups right, iff it is not a deletion that leaves a stale public entry |
| `KeyCache.LookupsRun` | kontrol/keypair.go:85-217 | so over every run without such deletions, evictions included |
| `KeyCache.CarefulIsStaleFree` | kontrol/keypair.go:95-107 | runs without evictions whose deletions give only the ID have none |
| `KeyCache.Drive` | kontrol/keypair.go:85-217 | over any run the answer to each addition and ID lookup is the one the backend alone gives at that point; so are those to public-key lookups and IsValid when no deletion leaves a stale entry, in particular in careful runs |
| `KeyRace.FleetingStep` | kontrol/keypair.go:159-209 | with operations interleaved at their table and cache accesses, every step keeps deleted keys cached by ID only while their deletion is under way, iff it does not cache a key whose deletion is done with |
| `KeyRace.RightBetweenDeletions` | kontrol/keypair.go:159-209 | over every interleaving without such late fills ID lookups are right whenever no deletion is under way |
| `KeyRace.LookupOvertaken` | kontrol/keypair.go:175-191 | any live key that is not cached can be cached for good after its deletion, by a lookup that the deletion overtakes |
| `KeyRace.UninterruptedIsOneByOne` | kontrol/keypair.go:159-209 | operations that are not interrupted are those of the cache one by one |
| `KeyRace.BeginsUnlessIdle` | kontrol/keypair.go:159-209 | an operation may begin whatever is under way, unless on its own it would change nothing |
| `KeyRace.LandsAtAnyTime` | kontrol/keypair.go:159-209 | what is under way may reach the caches at any time and in any order, and does what it should there |
| `KeyCache.PublicUnique` | kontrol/002-table.sql:20-22 | uniqueness makes the public-key lookup well defined |
| `KeyCache.TableAnswers` | kontrol/postgres.go:432-472 | a live row is answered with its key, a deleted and a missing one with their errors, by ID and by public key alike |
| `KeyCache.AddExactly` | kontrol/postgres.go:396-413 | a key is added iff its three parts are given and none of them is in any row, deleted ones included, and is found afterwards |
| `KeyCache.DeleteExactly` | kontrol/keypair.go:95-107 | a delete keeps public-key lookups right iff it does not leave the public entry of a live key behind |
| `KeyCache.AgreementImpliesLookups` | kontrol/postgres.go:432-472 | agreeing caches answer public-key lookups as the backend does |
| `SockJs.WebsocketSession.HandleFrame` | sockjsclient/sockjsclient.go:221-258 | what each frame type does: queue its payload, read again, or fail |
| `SockJs.WebsocketSession.Recv` | sockjsclient/sockjsclient.go:198-259 | result, buffer and reads consumed are those of one call of the abstract session |
| `SockJs.XhrSession.HandleFrame` | sockjsclient/xhr.go:176-261 | the same for a polled frame; a close frame closes the session |
| `SockJs.XhrSession.Recv` | sockjsclient/xhr.go:102-155 | the same for the polling loop with its timeouts and status codes |
| `SockJs.ReceivedExactly` | sockjsclient/sockjsclient.go:198-259 | Recv succeeds iff a message is buffered, or the session is open and the first event that is not "read again" brings one; it returns the first and takes exactly the events up to there |
| `SockJs.DrivenConserves` | sockjsclient/sockjsclient.go:198-281 | over any calls of Recv and Close the messages returned, followed by what is buffered or still to come, are what there was |
| `SockJs.DrivenComplete` | sockjsclient/xhr.go:102-155 | called often enough, Recv returns every message that is buffered or comes before the session is closed |
| `SockJs.ReadsBring` | sockjsclient/sockjsclient.go:224-250 | the reads of a connection bring the payloads of its frames in order |
| `SockJs.PollsBring` | sockjsclient/xhr.go:203-260 | the polls before the closing one bring the payloads of their frames in order |
| `SockJs.FramesBring` | sockjsclient/sockjsclient.go:224-250 | a session given one 'a' frame returns its list in order, one given an 'm' frame its text |
| `SockJs.OthersBringNothing` | sockjsclient/sockjsclient.go:221-258 | frames of other types and frames that do not decode bring nothing; exactly 'o' and 'h' are followed by another read |
| `SockJs.Drain` | sockjsclient/sockjsclient.go:198-281 | the results of any calls of Recv and Close are those of the abstract run; returned messages, buffer and payloads still to come are the payloads of all frames in order; enough calls return all of them |
| `SockJs.DrainXhr` | sockjsclient/xhr.go:102-155 | the same for the polling transport, up to the poll that closes the session |
| `SockJs.TransportsAgree` | sockjsclient/xhr.go:208-222 | the transports deliver the same messages iff no empty 'm' frame comes |
| `FrameReader.Reader.ReadFrame` | sockjsclient/xhr.go:377-395 | the first byte is taken once, unless the timeout comes first or there is none |
| `FrameReader.Reader.ReadByte` | sockjsclient/xhr.go:361-375 | serves the next byte, iff there is one |
| `FrameReader.Reader.Read` | sockjsclient/xhr.go:343-359 | how many bytes come, which ones, what is left, and that it fails iff the stream is at its end and there is room or its end is pending |
| `FrameReader.Serve` | sockjsclient/xhr.go:343-395 | any mix of reads into non-empty buffers and single bytes serves the stream byte for byte, and as many calls as there are bytes serve all of it: without its first byte iff that is zero, or nothing after a timeout |
| `HandlerChain.RunChain` | method.go:207-277 | the chain stops early iff a handler fails or panics |
| `HandlerChain.ChainStops` | method.go:207-277 | after the first error no further handler counts |
| `HandlerChain.FinalAll` | method.go:279-284 | the loop folds all final functions over the outcome in order |
| `HandlerChain.FinalAfterError` | method.go:207-284 | when a handler before, at or after the method fails, final functions still run and get no response and its error |
| `HandlerChain.FinalAfterSuccess` | method.go:207-284 | after success a final function gets the response and its answer is the outcome |
| `HandlerChain.FinalsInTurn` | method.go:279-284 | each final function gets what the one before it returned |
| `HandlerChain.ServeKite` | method.go:207-277 | the handlers called are exactly those up to the first error; then all final functions; the response is the method's, the first non-nil or the latest by mode |
| `HandlerChain.Method.RunMethod` | request.go:62-119 | exactly one reply on authentication failure, a panic while authenticating, throttling, error, panic or success; kite-wide handlers are merged iff not merged before and the request is admitted |
| `HandlerChain.RefusalReplies` | request.go:62-119 | which error a request gets that is denied, whose authentication panics, or that finds no token |
| `HandlerChain.ServeAll` | request.go:62-119 | over any number of requests each gets one reply, computed with the kite-wide handlers merged in exactly once, as they were at the first request admitted |
| `HandlerServing.InvStep` | request.go:62-119 | every step of concurrent requests keeps: one reply when answered and none before, merge at most once |
| `HandlerServing.OneReplyEach` | request.go:62-119 | in every interleaving of any number of requests each has one reply when done, none before, and it is what the handlers after the one merge give |
| `HandlerServing.NoneIsLost` | request.go:62-119 | a request that arrives is there, and one that is not answered always has a step of its own that brings it nearer to its reply and concerns no other request |
| `HandlerServing.MergedForGood` | request.go:91-98 | once merged, the handlers stay as they are |

## Left out

- DnodeMessage.RoundTrip: requires that the counter stays at most 2^64 and that names are distinct at every level, for a struct receiver also up to the case of the first letter; cyclic values, maps with keys other than strings, and first letters outside ASCII are not modelled.
- DnodeMessage.RoundTrip: the receiver must fit: it excludes fixed arrays and maps of concrete Function values, on which setCallback fails or panics.
- DnodeMessage.WalkIsSkeleton: an embedded Function or list that holds callbacks is excluded: Scrub gives it the path of the struct around it, which no struct receiver takes (DnodeReceiver.StructRefuses). Methods promoted through embedding, the reflection panic on methods of an embedded unexported struct, and nil embedded pointers in receivers are not modelled.
- DnodePartial.Staged: Partials stand in addressable places and not inside interfaces, where JSON decoding never puts one; each is unmarshalled once into its own type.
- Calls.AlwaysCorrelated: states safety; the code does not guarantee that a waiting call ends.
- WsLease.LeaseHolds: assumes prompt goroutines, and store writes that succeed and take no time.
- HttpLease.LeaseHolds: makes the same assumptions.
- HttpLease.GoneInTime: makes the same assumptions.
- TokenCache.AlwaysFresh: speaks of cache keys, not of the fields they are concatenated from, and assumes prompt timers and a leeway between zero and the TTL.
- TokenRenewer.NeverQuietExactly: one renew loop; that there is only one is not claimed, because the wait group is raised inside the goroutine.
- KiteFilter.Get: leaves out the query by ID alone, which uses a stored value as a key; what the version field is to the version parser is a parameter, and so is the constraint check, which is total: a stored version that does not parse reaches it in the source as a nil version.
- KiteIndex.ComponentsOfJoin: the components "." and ".." of a key are ordinary names, where etcd cleans them away.
- KiteStore.Etcd.Add: TTLs are modelled as the later disappearance of a key, not as times; Update's refresh of the parent directory is not modelled.
- KiteFilter.Shuffle: the random permutation is a parameter.
- KiteStore.SelectQuery: the SQL text is a list of column equalities; Postgres.Get's single-row case without filtering is not modelled.
- KeyCache.Drive: operations run one after the other; interleaved ones are the matter of KeyRace, which speaks of ID lookups only.
- KeyCache.CachedStorage.GetKeyFromPublic: the backend is the row set with its uniqueness constraints; SQL errors are not modelled.
- HandlerServing.OneReplyEach: the handlers of concurrent requests do not share state, handlers are not added while requests are served, and the reply function itself does not panic.
- SockJs.Drain: JSON decoding of frame data is given as part of the frame.
- SockJs.DrainXhr: a Close during a poll ends that poll; that the response may still win the race is not modelled.
- JWT parsing, RSA signatures, UUIDs and JSON text are abstract.
- Networking, TLS, proxies, tunnels, logging, configuration, command-line tools, system information, WebRTC signalling and the watcher are not part of this model.
