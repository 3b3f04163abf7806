# Tailroute, modelled and proved in Dafny

Tailroute is a control plane built on leases. Agents claim hostnames in a table kept by a
controller. The controller publishes the live part of that table as DNS. Each agent serves its
hostnames through a local proxy whose table must agree with what it registered.

This project models the five parts that carry the product's promises and proves what they promise
for all inputs, all runs or all interleavings.

| part | modules |
|---|---|
| leases and ownership | `Leases` (PUT as a function and its meaning), `Views` (DNS and admin views, purge), `Rfc3339` (timestamps as text), `Storage` (the tables, updated in place), `Controller` (the handlers), `Runs` (serial runs), `Credentials` (who may act and on which names), `PurgeRuns` (a purge is not seen), `Interleaving` (handlers split at their await points), `Overlaps` and `OneTimeTokens` (what overlapping handlers break, and exactly when), `Simulation` (the serial controller as one schedule of the interleaved one), `Intents` (services enabled by an administrator) |
| reconciliation | `Merge` (labels, intents, static routes), `Claims` (whose wish wins a host), `Agreement` (proxy, table and DNS after a reconcile), `EventLoop` (debounce, rescan, back-off) |
| DNS | `DnsCache` (the cache against the log of upstream replies), `DnsServer` (questions, requests, response codes) |
| backends | `Resolve` (both resolvers), `Backends` (authorities and fingerprints) |
| names | `Hostnames` (normalisation, host lists, policy), `LookupKeys` (DNS and proxy keys) |

`Text` holds strings, decimals and orders on text.

## How the source is read

- A clock reading is a natural number: nanoseconds since year 0 for wall-clock time and for the
  cache, milliseconds in the event loop. `Storage.Store.PutRoutes` takes one reading per entry, as
  the loop reads the clock anew each time. The serial handlers take one reading per request. In the
  interleaved machine the clock moves on between any two steps, and a reading bound into a later
  statement (heartbeat, enrolment, purge) is a step of its own.
- Timestamps are stored as text and parsed back; the tables of the model hold the instants, which
  `Rfc3339.ParseRender` justifies.
- Chrono's `to_rfc3339` is modelled in full for UTC: four-digit years (a sign and more digits from
  year 10000 on), 0, 3, 6 or 9 fraction digits, the offset `+00:00`.
- A transaction is one step, with one clock reading in the interleaved machine. Statements outside a
  transaction are steps of their own there: looking a token up, marking it used and inserting the
  agent; marking an agent revoked and deleting its rows; reading the rows of a refresh.
- IDNA processing and the URL parser are function parameters. Where a result needs something of
  IDNA it says so: `Hostnames.IdnaStable`, that IDNA leaves its own lower-cased output alone.
- A hash is taken to be verified by its own token only, so a table holds the token itself.
- Ids, tokens and credentials are drawn by the caller. A drawn value that is already taken violates
  a key and is an error.
- Ports and networks of a container are sequences in the iteration order of the hash maps they come
  from. Network names are distinct, as map keys are.
- Upstream DNS is any reply, failure or timeout. The registry a question sees may be another at
  each look.
- Error texts are not kept: an error is `None` or a constructor.

## What is not as documented

The model follows the code. These are the places where the code and its documents part, or where a
property of serial runs fails under overlap. Each has a failing input and the exact condition.

- SPEC-v1.md line 920 says existing proxy routes should continue serving while the controller is
  unreachable. The refresh after a failed reconcile leaves admin intents out
  (`Merge.RefreshDropsIntent`). The routes are kept if and only if no host depends on an intent
  (`Merge.RefreshKeepsRoutesExactly`).
- SPEC-v1.md line 915 says expired agents are excluded from DNS immediately. They are excluded by
  the next refresh: `Runs.StaleAnswer` is a run that ends with a stale answer, and
  `Runs.RegistryCurrentExactly` says when the registry is current.
- SPEC-v1.md lines 696 and 1372 say an enrolment token is good for one use. Two overlapping
  enrolments can both be let through on one token (`OneTimeTokens.DoubleUseReachable`, and
  `OneTimeTokens.CountsBreak` for the count of agents). A handler spends a used token if and only if
  another handler spent it while this one stood between its look-up and its update
  (`OneTimeTokens.HeldTokenUsedExactly`, `OneTimeTokens.OneTimeExactly`).
- A PUT that passed its checks can commit after its agent was revoked
  (`Overlaps.LatePutReachable`). `Overlaps.OwnersExact` and `Overlaps.OwnersOverRuns` say exactly which
  steps leave a row with a revoked owner, and `Overlaps.RowsAccountedExact` which leave one that no
  handler is about to delete. Such a row is in no DNS view, but keeps others out until the revoked
  agent's lease would have run out (`Overlaps.LatePutNeverPublished`).
- A view read before a revocation can be published after the revocation's own refresh and put the
  host back until the next refresh (`Overlaps.OvertakingReachable`). A published host's owner is
  revoked by now if and only if it was marked after the rows of that view were read
  (`Overlaps.PublishedRevokedExactly`).
- A purge cannot be told from no purge until the owner of a purged row sends a heartbeat: then the
  name returns without the purge and not with it (`PurgeRuns.ReviveShows`,
  `PurgeRuns.PurgeUnseenExactly`).
- A name that DNS answers with a trailing dot is not found by the proxy with that dot
  (`LookupKeys.ProxyMissesTrailingDot`); the exact key sets are in `LookupKeys.DnsKeyExact` and
  `LookupKeys.ProxyKeyExact`.
- The text order of timestamps is the order of time within years of four digits
  (`Rfc3339.RenderOrder`). The first instant of year 10000 sorts before the one a nanosecond earlier
  (`Rfc3339.NewYearSortsBack`). An instant of a four-digit year sorts before a later one if and only
  if the later year has four digits too (`Rfc3339.RenderOrderExact`); nothing is said of two instants
  after 9999.
- Two resolvers choose backends. They agree on the intended inputs (`Resolve.ResolversAgree`), differ
  on `Resolve.ResolversDiffer`, and agree on exactly the unlabelled containers of
  `Resolve.ResolversAgreeExactly`.
- SPEC-v1.md line 605 says a failed probe should prevent registration. The code logs it and
  registers, so the probe does not appear in the model.

## Model

| member | source | states |
|---|---|---|
| Rfc3339.RenderOrder | crates/tailsvc-storage/src/store.rs:188-188 | rendered timestamps compare as text as their instants do, and are equal only for equal instants, in years of four digits, although the number of fraction digits varies |
| Rfc3339.RenderOrderExact | crates/tailsvc-storage/src/store.rs:420-428 | a later instant sorts after a four-digit-year one if and only if its own year has four digits |
| Rfc3339.NewYearSortsBack | crates/tailsvc-storage/src/store.rs:420-428 | the first instant of year 10000 sorts before the one a nanosecond earlier |
| Rfc3339.ParseRender | crates/tailsvc-storage/src/store.rs:234-240 | a rendered timestamp is read back as the instant it was, to the nanosecond, in years of four digits: so the tables may be modelled as holding instants |
| Backends.AuthorityIdentifies | crates/tailsvc-common/src/backend.rs:11-18 | two backends print the same authority iff the ports agree and the hosts agree up to one bracket pair around a bare host with a colon |
| Backends.AuthorityReads | crates/tailsvc-common/src/backend.rs:11-22 | the authority is the host, in brackets if it holds a colon and has none, a colon and digits that read back as the port, and nothing else stands behind the last colon; the base URL adds scheme and slash |
| Backends.FingerprintIdentifies | crates/tailsvc-common/src/backend.rs:20-26 | the fingerprint is the base URL and identifies the backend as the authority does |
| Hostnames.NormalizeIsCanonical | crates/tailsvc-common/src/hostname.rs:25-78 | a normalised hostname is lower-case and of valid syntax, and has only label characters and dots, so no colon, comma, slash or white space |
| Hostnames.NormalizeExactly | crates/tailsvc-common/src/hostname.rs:25-78 | normalisation succeeds iff the input without the white space around it is not empty, has no colon or slash and goes through IDNA to labels of 1 to 63 letters, digits and inner hyphens joined by dots, 253 characters at most; the result is that text in lower case |
| Hostnames.NormalizeIdempotent | crates/tailsvc-common/src/hostname.rs:25-52 | normalising a normalised hostname gives it back, given stable IDNA |
| Hostnames.FirstOccurrencesOrdered | crates/tailsvc-common/src/hostname.rs:84-95 | dropping repetitions keeps the members and orders them strictly by where each first occurs |
| Hostnames.ParseHostList | crates/tailsvc-common/src/hostname.rs:81-96 | the loop with its seen-set computes the host list: none if a part is bad, else the first occurrences of the normal forms |
| Hostnames.HostListMeaning | crates/tailsvc-common/src/hostname.rs:81-96 | parsing succeeds iff every part normalises; the result is not empty, has exactly the normal forms as members and is ordered by first occurrence |
| Hostnames.HostListRoundTrip | crates/tailsvc-common/src/hostname.rs:81-96 | parsing a result joined by commas gives the result back, given stable IDNA |
| Hostnames.PolicyIgnoresCase | crates/tailsvc-controller/src/config.rs:158-175 | the block and suffix policy gives case variants of a host the same verdict |
| Hostnames.AllowedExactly | crates/tailsvc-controller/src/config.rs:158-175 | allowed iff no blocked name in any case and, if there are suffixes, the host ends in one or is one without its leading dots |
| Hostnames.BlockOneMore | crates/tailsvc-controller/src/config.rs:160-164 | blocking one more name takes out exactly its case variants |
| Hostnames.SuffixOneMore | crates/tailsvc-controller/src/config.rs:165-174 | one suffix more lets in exactly the unblocked hosts under it; the first one keeps out all others |
| Credentials.PolicyOverRuns | crates/tailsvc-controller/src/api.rs:160-165 | over serial runs no name with a row and no published name is blocked, and each is under a configured suffix if there are any |
| Leases.PutEntriesExact | crates/tailsvc-storage/src/store.rs:222-278 | the loop, before the sweep: accepted and conflicting entries are told apart by the original table, in order, and each row is the last accepted entry's or the original |
| Leases.PutRoutesExact | crates/tailsvc-storage/src/store.rs:203-299 | the whole PUT with a clock read per entry that does not run backwards: accepted list, conflict list and every row afterwards, in terms of the original table |
| Leases.PutAtMeaning | crates/tailsvc-storage/src/store.rs:203-299 | at one instant: a host asked for is accepted iff no other agent holds it on a live lease, conflicts otherwise with owner and expiry; every entry is in one list; the agent owns exactly the accepted hosts, each with its last entry; all other rows are unchanged |
| Leases.ConflictExpiryExact | crates/tailsvc-storage/src/store.rs:233-254 | while the owner keeps the row and sends no heartbeat, a retry is refused at every time before the reported expiry and accepted at every time from it on |
| Leases.PutIdempotent | crates/tailsvc-storage/src/store.rs:203-299 | repeating a PUT at the same instant gives the same table, the same accepted list and the same conflicts |
| Leases.PutPermutation | crates/tailsvc-storage/src/store.rs:203-299 | reordering a request with distinct hosts gives the same table and the same sets of accepted hosts and conflicts |
| Views.PurgeExact | crates/tailsvc-storage/src/store.rs:419-431 | the purge, which compares text, removes exactly the rows whose owner was never seen or was seen more than a lease ago; a row right at its end stays |
| Views.ParseIpv4Exact | crates/tailsvc-controller/src/api.rs:609-613 | an address parses iff it is four decimal octets without leading zeros joined by dots, and to those octets in order |
| Views.AdminViewMeaning | crates/tailsvc-storage/src/store.rs:323-369 | the admin view lists a host iff it is active, with its row's fields, and the expiry shown is the first time at which, left alone, it is not |
| PurgeRuns.TrimmedStep | crates/tailsvc-storage/src/store.rs:203-431 | two controllers that differ in rows of dead owners only still do after any step at a later time, and have the same registry, unless the step is a heartbeat of an owner of a missing row |
| PurgeRuns.PurgeKeepsViews | crates/tailsvc-storage/src/store.rs:343-428 | after a purge and any run without such a heartbeat, the registry and, at every later time, the active routes, the DNS view and the admin view are those of a controller that has not purged |
| PurgeRuns.ReviveShows | crates/tailsvc-storage/src/store.rs:187-201 | after such a heartbeat the name is active again without the purge and its row is missing with it |
| PurgeRuns.PurgeUnseenExactly | crates/tailsvc-storage/src/store.rs:419-431 | the views agree in all states of a run iff no event of it is such a heartbeat |
| LookupKeys.DnsKeyExact | crates/tailsvc-dns/src/registry.rs:20-27 | DNS finds a normalised hostname under exactly its case variants followed by any number of dots |
| LookupKeys.ProxyKeyExact | crates/tailsvc-proxy/src/routes.rs:33-36 | the proxy finds it under exactly its case variants, alone or with a colon and anything behind it |
| LookupKeys.ProxyMissesTrailingDot | crates/tailsvc-proxy/src/routes.rs:34-35 | with a trailing dot DNS finds the name and the proxy's key is no normalised hostname |
| LookupKeys.LookupsAgree | crates/tailsvc-controller/src/api.rs:601-616 | after a refresh DNS answers any case variant with any number of dots with an address iff the row's owner is enrolled, unrevoked, live and has that address; the proxy finds the name alike in any case and with any port |
| Storage.SweepOwned | crates/tailsvc-storage/src/store.rs:279-292 | the sweep removes exactly the agent's rows for hosts not asked for |
| Storage.Store.ConsumeEnrollmentToken | crates/tailsvc-storage/src/store.rs:124-142 | the search succeeds iff the token exists unused, and then marks that token alone |
| Storage.Store.VerifyAgentToken | crates/tailsvc-storage/src/store.rs:170-185 | true iff the agent exists, is not revoked and the credential is its own; what hangs on it is in the next rows |
| Credentials.WrongCredential | crates/tailsvc-storage/src/store.rs:170-185 | a heartbeat or PUT with another credential, or for an unknown or revoked agent, changes nothing |
| Credentials.RightCredential | crates/tailsvc-controller/src/api.rs:131-148 | a heartbeat with the agent's own credential sets its lease and address, changes nothing else in the tables, and refreshes |
| Credentials.CredentialFromEnrolment | crates/tailsvc-storage/src/store.rs:144-168 | every agent of a run was added by an enrolment of it, whose credential it still has |
| Credentials.ChangesCarryCredential | crates/tailsvc-controller/src/api.rs:131-178 | over serial runs, whatever changes an agent's lease, address or rows is a heartbeat or PUT of that agent with the credential of the enrolment that added it |
| Credentials.QuietSteps | crates/tailsvc-controller/src/api.rs:104-129 | tokens and enrolments leave the rows and the registry alone |
| Storage.Store.Heartbeat | crates/tailsvc-storage/src/store.rs:187-201 | renews lease and address of an unrevoked agent and of no other; not found otherwise |
| Storage.Store.PutRoutes | crates/tailsvc-storage/src/store.rs:203-299 | the transaction is the PUT of `Leases`, whose meaning is proved there; an unknown or revoked agent is not found and nothing changes |
| Storage.Store.ActiveDnsRoutes | crates/tailsvc-storage/src/store.rs:393-417 | lists exactly the rows with an enrolled, unrevoked, live owner, with that owner's address |
| Storage.Store.PurgeExpiredAgents | crates/tailsvc-storage/src/store.rs:419-431 | removes the rows whose owner's timestamp text sorts before the cutoff's, and counts them |
| Controller.ControllerApi.RefreshDns | crates/tailsvc-controller/src/api.rs:601-616 | the loop publishes exactly the active hosts whose address parses |
| Controller.ControllerApi.HandleEnroll | crates/tailsvc-controller/src/api.rs:104-129 | unauthorised iff the token is not usable; otherwise the token is spent even if the agent cannot be added |
| Controller.ControllerApi.HandleHeartbeat | crates/tailsvc-controller/src/api.rs:131-148 | renews and refreshes iff the credential is valid, with the reply |
| Controller.ControllerApi.HandlePut | crates/tailsvc-controller/src/api.rs:150-178 | one disallowed hostname rejects the whole request; otherwise the PUT and a refresh; the reply in each case |
| Runs.InvariantsHold | crates/tailsvc-controller/src/api.rs:104-178 | in every state of every serial run rows are lower-case, allowed and owned by enrolled unrevoked agents; agents number at most the used tokens, those at most the created ones; the registry is the view of the present tables as of the last refresh |
| Runs.RegistryCurrentExactly | crates/tailsvc-controller/src/lib.rs:128-139 | in every such state the registry says what a refresh now would say iff no lease behind a published name has run out since |
| Runs.RegistryGoesStale | crates/tailsvc-controller/src/api.rs:601-616 | after token, enrolment and PUT, a lease later the registry still holds the name and a refresh would not |
| Runs.StaleAnswer | crates/tailsvc-controller/src/api.rs:601-616 | the same with numbers: a run whose registry differs from the view at the end of the lease |
| Runs.LossExact | crates/tailsvc-storage/src/store.rs:203-299 | a step takes a host from its owner iff the owner puts a set without it, it is deleted, the owner is revoked, or the lease is over and another agent puts it or a purge finds it older than a lease |
| Runs.OwnershipSafety | crates/tailsvc-storage/src/store.rs:203-431 | over whole runs: between a state in which an agent owns a host and one in which it does not, there is a step that took it, and it is one of those |
| Interleaving.AlwaysHistoric | crates/tailsvc-storage/src/store.rs:379-417 | in every interleaving the registry, every set of rows read and every view about to be published come from earlier states of the tables and later-or-equal clock readings |
| Interleaving.PublishedWereActive | crates/tailsvc-controller/src/lib.rs:84-139 | in every interleaving no published entry's owner was revoked when its row was read, nor was its lease over when the clock was read |
| Overlaps.OwnersExact | crates/tailsvc-storage/src/store.rs:209-299 | from tables whose owners are all enrolled and unrevoked, a step leads to such tables iff it is neither a commit for an agent revoked since its checks with some host free, nor the mark of an agent that owns a row |
| Overlaps.OwnersOverRuns | crates/tailsvc-storage/src/store.rs:203-391 | every owner is enrolled in all states of a run iff so at the start and no step of the run is one of those two |
| Overlaps.RowsAccountedExact | crates/tailsvc-storage/src/store.rs:379-391 | every row of a revoked agent is about to be deleted, and a step breaks this iff it is such a commit after the deletion |
| Overlaps.CommitHasPassed | crates/tailsvc-controller/src/api.rs:150-178 | in every interleaving a PUT about to commit was begun with the agent's credential and allowed hosts only, and the agent has been found enrolled and unrevoked since |
| Overlaps.RevokedHandlersEnd | crates/tailsvc-storage/src/store.rs:187-211 | a heartbeat or PUT that meets its agent revoked at its update or lookup ends without effect |
| Overlaps.LatePutReachable | crates/tailsvc-controller/src/api.rs:587-599 | from every boot state in which an agent could put a free host, some interleaving leaves that host owned by the revoked agent |
| Overlaps.LatePutNeverPublished | crates/tailsvc-storage/src/store.rs:209-220 | whatever happens after such a commit, as long as the agent keeps the row it is in no DNS view at any time, and keeps another agent out iff the revoked lease would still be live |
| Overlaps.PublishedRevokedExactly | crates/tailsvc-storage/src/store.rs:393-417 | the owner behind a published host is revoked by now iff a step since the rows were read has marked it |
| Overlaps.OvertakingReachable | crates/tailsvc-controller/src/api.rs:587-616 | from every boot state and for every host it publishes: the revoke handler of the owner has finished, the host is out of DNS, and a publication puts it back |
| OneTimeTokens.HeldTokenUsedExactly | crates/tailsvc-storage/src/store.rs:124-142 | in every interleaving, the token a handler is about to mark is already used iff another handler marked it while this one stood between its look-up and its update |
| OneTimeTokens.OneTimeExactly | crates/tailsvc-storage/src/store.rs:124-142 | as many tokens have gone used as enrolments were let through iff no two handlers overlap on a token |
| OneTimeTokens.AgentsWithinTokens | crates/tailsvc-controller/src/api.rs:104-129 | without such an overlap agents number at most the used tokens and those at most the created ones, in every state of every interleaving |
| OneTimeTokens.DoubleUseReachable | crates/tailsvc-storage/src/store.rs:124-142 | from every boot state with a usable token, an interleaving enrols two agents on it |
| OneTimeTokens.CountsBreak | crates/tailsvc-storage/src/store.rs:124-168 | so agents come to outnumber used tokens |
| Simulation.StepSimulated | crates/tailsvc-controller/src/api.rs:104-178 | a handler of the interleaved machine that runs undisturbed ends with the tables and registry of the serial step |
| Simulation.SerialRunsAreInterleavings | crates/tailsvc-controller/src/api.rs:104-616 | every serial run with a clock that does not run backwards is a run of the interleaved machine from boot |
| Resolve.SortDedupOne | crates/tailsvc-docker/src/backend_resolve.rs:57-70 | whatever way the ports are sorted, one is left after dedup iff all of them are equal, and it is that one |
| Resolve.SinglePublishedIff | crates/tailsvc-docker/src/backend_resolve.rs:57-70 | a single container port is found iff every binding has it and there is one |
| Resolve.SelectPublishedIff | crates/tailsvc-docker/src/backend_resolve.rs:72-101 | none iff no binding matches; a binding iff it is the only one for the port or the only local one |
| Resolve.ResolveExact | crates/tailsvc-docker/src/backend_resolve.rs:11-119 | a backend is returned iff it is the one determined at the highest applicable level of priority: the label; a decisive binding's port, at 127.0.0.1 for an empty or 0.0.0.0 address and else at its own; 127.0.0.1 on the host network; the container's address |
| Resolve.ResolveIgnoresOrder | crates/tailsvc-docker/src/backend_resolve.rs:11-119 | neither success nor result changes under any reordering of published ports, exposed ports or networks |
| Resolve.ResolversAgree | crates/tailsvc-docker/src/candidate.rs:220-273 | for unlabelled containers with at most one published port, matching a single exposed one, both resolvers give the same answer |
| Resolve.SeveralBindings | crates/tailsvc-docker/src/candidate.rs:220-273 | with several bindings and no single exposed port they differ iff all bindings are for one port and one of them is decisive for it |
| Resolve.ResolversAgreeExactly | crates/tailsvc-docker/src/candidate.rs:220-273 | exactly when they agree, for every unlabelled container, in terms of bindings of the exposed port, decisive bindings, the network mode and the networks |
| Resolve.ResolversDiffer | crates/tailsvc-docker/src/candidate.rs:220-273 | a container that exposes one port and publishes another: each resolver names a different backend |
| Merge.PrepareStaticRoutes | crates/tailsvc-agent/src/static_routes.rs:20-51 | the nested loops compute the prepared routes described by the next row |
| Merge.PrepareMeaning | crates/tailsvc-agent/src/static_routes.rs:20-51 | a route is prepared iff it is an entry whose backend parses and of whose hosts one normalises, and its hosts are exactly the normal forms |
| Claims.LabelClaimsExact | crates/tailsvc-agent/src/reconcile.rs:282-325 | the label layer claims exactly the hosts of containers whose backend resolves, each with that backend and the container's id and name |
| Claims.IntentClaimsExact | crates/tailsvc-agent/src/reconcile.rs:327-364 | the intent layer claims exactly the hosts of intents whose backend parses, under the intent's name or "enabled" and no container id |
| Claims.StaticClaimsExact | crates/tailsvc-agent/src/static_routes.rs:63-95 | the static layer claims exactly the hosts of the prepared routes, named "static" |
| Claims.MergeExact | crates/tailsvc-agent/src/reconcile.rs:277-371 | the proxy map after a merge: the last static route with the host has it; else the last intent with it whose backend parses; else the last container with it that resolves |
| Claims.ResolvingHostsServed | crates/tailsvc-agent/src/reconcile.rs:297-324 | every host of every container that resolves is in the proxy map and in the PUT |
| Merge.ApplyStaticRoutes | crates/tailsvc-agent/src/static_routes.rs:55-97 | the static layer over the rest; the counts of hosts written and overridden account for the size of the map |
| Merge.AddServices | crates/tailsvc-agent/src/reconcile.rs:282-325 | the label layer: every host of every container whose backend resolves, repetitions kept in the lists |
| Merge.OverrideIntents | crates/tailsvc-agent/src/reconcile.rs:327-364 | the intent layer: each host of an intent whose backend parses replaces what was there |
| Merge.MergeAll | crates/tailsvc-agent/src/reconcile.rs:277-371 | the merge of a reconcile is the three layers; without an answer from the controller there are no intents |
| Merge.MergeMeaning | crates/tailsvc-agent/src/reconcile.rs:278-368 | the map holds statics over intents over labels; a host is in the map iff in the route list; its last entry describes the map; hosts of intents and statics have one entry; the heartbeat list says place by place what the route list says |
| Merge.RefreshMeaning | crates/tailsvc-agent/src/reconcile.rs:206-250 | the map installed after a failed reconcile is statics over labels, host by host |
| Merge.RefreshDropsIntent | crates/tailsvc-agent/src/reconcile.rs:194-197 | a host claimed by an intent alone is served after the reconcile and not after the refresh |
| Merge.RefreshKeepsRoutesExactly | crates/tailsvc-agent/src/reconcile.rs:181-250 | the refresh keeps the served routes iff each host of an intent is claimed by a static route too or its labels say the same |
| Agreement.ReplayIsLocal | crates/tailsvc-agent/src/reconcile.rs:277-371 | the entry the controller keeps for a host, the last one, is the proxy's route for it, and the hosts are the same |
| Agreement.ReconcileAgrees | crates/tailsvc-agent/src/reconcile.rs:277-396 | after merge, PUT, heartbeat and refresh the agent's rows are exactly its proxy map without the conflicting hosts, field by field; every such name is one its proxy resolves to that route; DNS answers it with the agent's address |
| Agreement.ReconcileOnce | crates/tailsvc-agent/src/reconcile.rs:277-396 | the reconcile swaps the proxy table in any case; if the PUT is refused the controller is unchanged; otherwise every row the agent owns is resolved by its proxy to the registered backend and answered by DNS with its address |
| Agreement.RefreshLocalRoutes | crates/tailsvc-agent/src/reconcile.rs:206-250 | after the refresh the proxy finds, host by host, statics over labels and no intents |
| Agreement.SourcesAreCanonical | crates/tailsvc-agent/src/reconcile.rs:277-368 | parsed labels, rows of the enabled services and prepared static routes all claim normalised hostnames, as the agreement needs |
| Intents.CheckHosts | crates/tailsvc-controller/src/api.rs:307-317 | passes iff there is a hostname and every one normalises and is allowed, and returns the normal forms |
| Intents.EnabledServices.Enable | crates/tailsvc-controller/src/api.rs:301-358 | refused iff a hostname or the backend is bad; done iff the agent exists and the drawn id is free where it is needed; keeps ids distinct and hosts normalised and allowed; returns the id that stays |
| Intents.EnabledServices.Disable | crates/tailsvc-controller/src/api.rs:360-372 | switches off the row of that id and no other; not found otherwise |
| Intents.EnableMeaning | crates/tailsvc-storage/src/store.rs:475-507 | enabling adds the slot to what its agent is told and to no other agent's, keeps an existing id and touches no other slot |
| Intents.DisableMeaning | crates/tailsvc-storage/src/store.rs:509-535 | disabling by id takes exactly that slot out |
| Intents.EnableDisableEnable | crates/tailsvc-storage/src/store.rs:475-535 | in, out and in again under one id, whatever id is drawn, with all other slots as at first |
| EventLoop.AgentLoop.Turn | crates/tailsvc-agent/src/reconcile.rs:110-179 | one turn of the loop is a step of the machine whose runs the next two rows are about |
| EventLoop.LoopKeepsObligations | crates/tailsvc-agent/src/reconcile.rs:110-204 | in every run, after a relevant event that no reconcile has followed, a debounce is pending 400 ms after it or the forced rescan is the only step left; a debounce is pending iff a relevant event came since the last debounced reconcile or rescan; after k failures since the last success the back-off is min(500·2^k, 30000); after j broken streams in a row the reconnect delay is min(1000·2^j, 30000) |
| EventLoop.DebounceWaits | crates/tailsvc-agent/src/reconcile.rs:138-156 | a debounced reconcile answers a relevant event since the last debounced reconcile or rescan, and comes no sooner than 400 ms after the last one |
| DnsCache.ResponseCache.Get | crates/tailsvc-dns/src/server.rs:68-77 | answers the unexpired entry and removes an expired one |
| DnsCache.ResponseCache.Put | crates/tailsvc-dns/src/server.rs:79-101 | stores under the lower-cased name and the type unless the lifetime is zero |
| DnsCache.CacheIsLog | crates/tailsvc-dns/src/server.rs:67-102 | in every interleaving of lookups and stores the cache answers as the log does: the latest reply for the name in any case and the type, while it lives |
| DnsCache.HitsAreSound | crates/tailsvc-dns/src/server.rs:316-355 | every hit of every run repeats a logged reply for the same key, younger than each record's TTL and the positive cap, or than the negative cap for NXDOMAIN |
| DnsCache.HitExactly | crates/tailsvc-dns/src/server.rs:67-102 | in every run a lookup hits iff the last reply recorded for the name in any case and the type is younger than every TTL and its cap, and gives that reply's records or NXDOMAIN |
| DnsCache.KeyExact | crates/tailsvc-dns/src/server.rs:68-69 | entries are kept apart by type and, case aside, by name |
| DnsCache.LookupCleans | crates/tailsvc-dns/src/server.rs:68-77 | a lookup leaves no dead entry for its key and touches no other |
| DnsServer.Server.ForwardQuery | crates/tailsvc-dns/src/server.rs:316-355 | the outcome and the cache operations of a forwarded question |
| DnsServer.ForwardedAnswer | crates/tailsvc-dns/src/server.rs:316-355 | after any cache history a forwarded question gets the kept reply's records one by one while it is fresh, else upstream's records, NXDOMAIN for none, and failure if upstream breaks or is late |
| DnsServer.Server.AnswerQuery | crates/tailsvc-dns/src/server.rs:286-314 | the outcome and the cache operations of a question, with the registry looked at twice |
| DnsServer.LoopResponse | crates/tailsvc-dns/src/server.rs:254-281 | the flags of the loop, folded over any outcomes, amount to: SERVFAIL iff a question failed and no answer was gathered, else NXDOMAIN iff some question was told so; all answers in order |
| DnsServer.Server.AnswerAll | crates/tailsvc-dns/src/server.rs:254-283 | the loop computes that response for its questions and leaves the cache as they leave it |
| DnsServer.Server.HandleRequest | crates/tailsvc-dns/src/server.rs:208-284 | refused, SERVFAIL for a self-pointing upstream, or the loop's response; the cache is untouched in the first two |
| DnsServer.RegisteredNamesStayLocal | crates/tailsvc-dns/src/server.rs:286-313 | whatever swaps happen, an A or AAAA question whose name was seen registered gets no cached or upstream record and no NXDOMAIN, fails iff the second look misses (A), and leaves the cache alone |
| DnsServer.RegisteredAnswer | crates/tailsvc-dns/src/server.rs:286-313 | end to end: after a refresh an A question for a normalised hostname in any case with any dots gets one record of that name, the service TTL and the owner's address iff the owner was enrolled, unrevoked and live with an address that parses to it; AAAA gets an empty answer |
| DnsServer.NxdomainIsReal | crates/tailsvc-dns/src/server.rs:316-338 | after any cache history, an NXDOMAIN answer comes from a no-records reply to this question or from one logged for the same key less than the negative cap ago |
| DnsServer.RequestExtendsRun | crates/tailsvc-dns/src/server.rs:254-283 | so does a whole request |
| DnsServer.ResponseCodesAreReal | crates/tailsvc-dns/src/server.rs:254-338 | however requests interleave, the response folded from the outcomes says SERVFAIL iff a question failed and none was answered, else NXDOMAIN iff some question was told so, which then came from a no-records reply now or a live cache entry; it holds all answers in order |
| DnsServer.LoopAnswersAfter | crates/tailsvc-dns/src/server.rs:254-283 | each question of the loop is answered after the cache history that the questions before it have left, as the row above supposes |
| DnsServer.RunCodes | crates/tailsvc-dns/src/server.rs:316-355 | after every run the cache holds answers and empty NXDOMAIN entries only, which the request loop relies on |

Setters and one-statement methods whose contract is the function they are named after (in
`Storage.Store`, `Controller.ControllerApi`, `EventLoop.AgentLoop`, `LookupKeys`) have no row; the rows
above are about those functions.

## Left out

- Proxying HTTP and WebSocket traffic, the controller's HTTP client and the HTTP probe.
- Docker: listing, inspecting and watching containers. Services and events are inputs.
- SQLite itself: tables are maps, foreign keys and unique columns are checks. Backups are left out.
- Argon2, token generation and base64.
- The URL parser behind `parse_backend_url` and the insides of IDNA, which are parameters.
- DNS wire format, transports and the upstream resolver.
- Admin sessions, the admin pages, bearer-header parsing, audit rows and discovery snapshots: they
  would only add easy members.
- Config loading, Tailscale address discovery and readiness flags.
- TCP probing: the code logs the result and goes on.
- `list_routes_admin` as a loop: its result is `Views.AdminView`, which the purge result is about.
- Parsing timestamps in other offsets, with other fraction lengths or leap seconds: only texts the
  controller itself has rendered are read.
- Sorting ports: `sort_unstable` is modelled on values by an insertion sort. `Resolve.SortDedupOne`
  holds for any sorted arrangement, so the choice does not matter.
- Storage errors other than those named in the table, and a poisoned cache lock.
- Views.PurgeExact: years up to 9999 and a clock at least a lease past year 0; beyond,
  `Rfc3339.RenderOrderExact` says how the text order fails.
- Runs.InvariantsHold: serial runs. Under overlap the clause on owners holds as `Overlaps.OwnersOverRuns`
  says, the clause on counts as `OneTimeTokens.AgentsWithinTokens` says, and the clause on the registry
  as `Interleaving.PublishedWereActive` says.
- Interleaving.PublishedWereActive: a PUT's transaction reads the clock once in the interleaved
  machine; the reading per entry is in `Leases.PutRoutesExact`.
- Agreement.ReconcileAgrees: a reconcile whose PUT is authorised and allowed; a rejected PUT changes
  nothing at the controller.
- DnsServer.Server.AnswerAll: as a method it runs undisturbed by other requests; what holds under
  interleaving is `DnsServer.ResponseCodesAreReal` and `DnsCache.HitsAreSound`.
