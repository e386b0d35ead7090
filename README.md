# Lacewing Windows server: a Dafny model

This project models the server side of lacewing's Windows backend,
`src/windows/server.c`: a TCP server built on overlapped I/O. The model covers
the state machine under the socket plumbing, in five parts.

- **Accept pool.** The server counts the accepts it has posted to its
  listening socket (`accepts_posted`). Two loops keep the pool topped up
  towards 16.
- **Client lifecycle.** A client is created, held across `on_connect`, and
  listed. Its close hooks run in reverse registration order, and
  `on_client_close`, registered first, runs last. That hook either leaves
  the client alive or deletes it.
- **Client list.** Clients are kept in insertion order, and callers traverse
  them with first/next.
- **Facade.** The hosting state, the data handler, and the two certificate
  loaders. The loaders include the case-insensitive table of store
  locations.

## Structure

The model has one Dafny module per concern.

- `AcceptPool` (`accept_pool.dfy`): the ideal count of 16 and the traces the
  replenish loop can produce.
- `CloseHooks` (`close_hooks.dfy`): the order in which close hooks fire.
- `ClientList` (`client_list.dfy`): the intrusive client list, modelled as a
  sequence.
- `CertLocation` (`cert_location.dfy`): the location lookup and the defaults
  for location and store. These are pure functions.
- `Platform` (`platform.dfy`): the external calls whose success or failure
  the server branches on: `calloc`, `WSASocket`, `AcceptEx`, socket
  creation, `listen`, `lw_file_exists`, `CertOpenStore`,
  `CertFindCertificateInStore` and `AcquireCredentialsHandleA`. Each one is
  a method that succeeds or fails nondeterministically. Calls whose result
  the server ignores are not oracles (see "Left out").
- `LacewingServer` (`server.dfy`):
  - The `Client` class stands for `struct lw_server_client`, and the
    `Server` class for `struct lw_server`. Their methods update the fields
    in place, as the C functions do.
  - `Server.Valid()` is the invariant kept between operations. It bounds the
    pool at 0..16 and requires distinct listed clients. It holds the facts
    that make parts of the file dead code: `dead` and `on_connect_called`
    are never true, and `on_disconnect` is never called.
- `ServerScenarios` (`scenarios.dfy`): sequences of operations that show the
  file's behaviour as written.

Handler calls are recorded, not run:
- `connects`, `disconnects`, `errors`, `received`.

Some effects are different in kind, so they are kept in ghost state:
- how many of the posted accepts belong to the live listening socket (`liveAccepts`);
- the sockets closed;
- the stores opened;
- the encodings each certificate search tried (`certFinds`);
- the credentials freed;
- the `free` of a client.

## Behaviour as written

The model follows the code, including these points:

- **`dead` stays false.** `on_client_close` writes `dead = false` when the
  client is still held (line 774). `dead` is therefore never true, and the
  delete at lines 280-284 cannot run (`Valid`). The branch is included
  and verified as dead.
- **Clients are never unlisted.** `on_connect_called` is never assigned, so
  the `on_disconnect` call and the list removal at lines 151-157 never run.
  A client whose stream closes while nobody holds it is freed but stays in
  `clients`. It is still counted by `lw_server_num_clients` and still
  visited by `lw_server_on_data (0)` (`UserHookBeforeLifecycle`).
- **Setting a data handler hooks no existing client.** `lw_server_on_data`
  stores the handler (line 781) before it tests the stored field (line 787),
  so the arming loop at lines 789-793 is dead (`OnData`).
- **A failed `listen` still reports hosting.** The listening socket stays
  in `ctx->socket`, so `lw_server_hosting` is true (`HostFilter`).
- **Loading a certificate file stops the server.** `lw_server_load_cert_file`
  unhosts and drops any loaded credential as soon as the file exists. This
  happens even when it then fails (`LoadCertFile`).
- **Re-hosting can leave no accept posted.** Re-hosting while accepts of
  the old listening socket are still pending posts nothing, because the
  counter is still at 16. When those accepts complete with errors, the
  counter drains to 0 and nothing reposts. The server then reports hosting
  with no accept outstanding (`RehostBeforeDrainStarves`).

## Model

| member | source | states |
|---|---|---|
| AcceptPool.Successes | src/windows/server.c:235-237 | The number of successful posts in a trace: at most its length, and equal to it exactly when every post succeeded |
| AcceptPool.ReplenishStaysInPool | src/windows/server.c:235-237 | A replenish loop that starts in 0..16 stays in 0..16 and only adds to the count. It ends with the pool full, or at its first failed post after one success per earlier attempt |
| AcceptPool.AllPostedTrace | src/windows/server.c:235-237 | A loop whose every post succeeded up to the target is a replenish trace with one success per post |
| AcceptPool.FailedPostTrace | src/windows/server.c:235-237 | A loop that stops at a failed post below the target is a replenish trace whose successes are the posts before the failure |
| AcceptPool.FullPoolPostsNothing | src/windows/server.c:342-344 | With the counter at or above 16, the loop makes no attempt |
| CloseHooks.FiringOrder | src/windows/server.c:122-126 | Hooks fire in reverse registration order: the i-th to fire is the (n-1-i)-th registered |
| CloseHooks.LifecycleFiresLast | src/windows/server.c:122-126 | With on_client_close registered first, it fires last, and every hook before it is a user's |
| CloseHooks.LatestFiresFirst | src/windows/server.c:122-126 | A newly added hook fires first, ahead of all earlier hooks in their old order |
| CloseHooks.AddUserKeepsWellFormed | src/windows/server.c:122-126 | Adding a user hook keeps on_client_close the first and only lifecycle hook |
| ClientList.Remove | src/windows/server.c:156 | list_elem_remove never lengthens the list, and leaves it as it was when the element is absent |
| ClientList.RemoveContents | src/windows/server.c:156 | After removal every remaining node was in the list and is not the removed one, and every other node is kept |
| ClientList.RemoveSplit | src/windows/server.c:156 | Removing a node that occurs once joins the nodes before it to the nodes after it |
| ClientList.RemoveDistinct | src/windows/server.c:156 | Removing a listed node from a distinct list leaves a distinct list exactly one node shorter |
| ClientList.RemoveAt | src/windows/server.c:156 | Removing the node at k from a distinct list keeps every other node in its order |
| ClientList.Front | src/windows/server.c:754-757 | list_front: nothing exactly for an empty list, otherwise the node at position 0 |
| ClientList.Next | src/windows/server.c:749-752 | list_elem_next: a node of the list, and nothing only when x is the last node |
| ClientList.DistinctCount | src/windows/server.c:361-364 | A list of distinct nodes has as many elements as nodes |
| ClientList.IndexOf | src/windows/server.c:749-752 | The position of the first node holding x |
| ClientList.NextAt | src/windows/server.c:749-752 | In a distinct list, the node after position k is the one at k+1, and there is none after the last |
| ClientList.NextIndex | src/windows/server.c:749-752 | list_elem_next gives the node one position further, or nothing exactly when x is last |
| ClientList.WalkFrom | src/windows/server.c:749-757 | Following next from position k visits exactly the rest of the list |
| ClientList.TraversalVisitsAllInOrder | src/windows/server.c:749-757 | first/next traversal visits every listed client once, in insertion order |
| ClientList.PushKeepsDistinct | src/windows/server.c:286 | Pushing a new client at the back keeps the list distinct |
| CertLocation.EffectiveLocation | src/windows/server.c:391-392 | A null or empty location becomes "CurrentUser"; any other is kept |
| CertLocation.EffectiveStore | src/windows/server.c:394-395 | A non-empty store name is kept, and the result is never empty |
| CertLocation.DefaultStoreIsMy | src/windows/server.c:394-395 | A null or empty store name becomes "MY" |
| CertLocation.SameIgnoringCase | src/windows/server.c:401-446 | strcasecmp (a, b) == 0: equal length and equal characters after C-locale lowering |
| CertLocation.SameIgnoringCaseIsEquivalence | src/windows/server.c:401-446 | The comparison is reflexive, symmetric and transitive |
| CertLocation.LocationId | src/windows/server.c:397-449 | The compare-and-break chain; any id it yields is a CERT_SYSTEM_STORE_* location value (a multiple of 0x10000 in 0x10000..0x90000), so it never collides with the -1 of "unknown" |
| CertLocation.NamesDiffer | src/windows/server.c:399-449 | No name matches two table entries, so the order of the comparisons does not matter |
| CertLocation.MatchIndex | src/windows/server.c:399-449 | The entry the compare-and-break chain stops at, or no entry matches |
| CertLocation.LocationIdIsTableLookup | src/windows/server.c:399-462 | A location is known exactly when it matches a table entry ignoring case, and then it maps to that entry's id; otherwise location_id stays -1 |
| CertLocation.LocationIdIgnoresCase | src/windows/server.c:399-449 | Names equal up to ASCII case get the same id |
| CertLocation.KnownLocations | src/windows/server.c:399-449 | Each of the eight names maps to its fixed CERT_SYSTEM_STORE_* id, and the ids are distinct |
| CertLocation.DefaultLocationIsCurrentUser | src/windows/server.c:391-410 | Without a location the lookup gives CERT_SYSTEM_STORE_CURRENT_USER (0x10000) |
| LacewingServer.Client.constructor | src/windows/server.c:111-136 | A new client: user_count 0, dead and on_connect_called false, on_client_close its only close hook, an SSL wrapper exactly when requested |
| LacewingServer.Client.AddCloseHook | src/windows/server.c:122-124 | One more close hook, registered after the existing ones |
| LacewingServer.Server.constructor | src/windows/server.c:79-92 | A new server is not hosting, has no clients, and has no accepts posted and no certificate loaded |
| LacewingServer.Server.Hosting | src/windows/server.c:356-359 | lw_server_hosting: the listening socket is not -1; Unhost, HostFilter and the loaders state their effects through it |
| LacewingServer.Server.NumClients | src/windows/server.c:361-364 | lw_server_num_clients: the length of the client list |
| LacewingServer.Server.NumClientsCountsEachOnce | src/windows/server.c:361-364 | Under the invariant the count equals the number of distinct listed clients |
| LacewingServer.Server.CertLoaded | src/windows/server.c:723-726 | lw_server_cert_loaded: the cert_loaded flag, which only a fully successful load sets |
| LacewingServer.Server.ReportError | src/windows/server.c:319-320 | The error reaches on_error exactly when that handler is set |
| LacewingServer.Server.ClientFirst | src/windows/server.c:754-757 | The first listed client, or none exactly when the list is empty |
| LacewingServer.Server.ClientNext | src/windows/server.c:749-752 | The client listed right after c, or none exactly when c is the last |
| LacewingServer.Server.IssueAccept | src/windows/server.c:177-219 | Success adds one to accepts_posted and one pending accept on the live listening socket; any failure changes nothing |
| LacewingServer.Server.Replenish | src/windows/server.c:235-237 | The loop produces a replenish trace, and the counter grows by its number of successes while staying within 0..16 |
| LacewingServer.Server.ClientNew | src/windows/server.c:111-136 | Either a fresh client in the initial state, with an SSL wrapper exactly when a certificate is loaded, or nothing when allocation fails |
| LacewingServer.Server.ClientDelete | src/windows/server.c:138-162 | Null: nothing. Otherwise user_count + 1, socket invalid, SSL wrapper released and client freed; on_disconnect is called (if set) and the client is unlisted only when on_connect_called |
| LacewingServer.Server.OnClientClose | src/windows/server.c:769-777 | While held: dead = false and nothing deleted. Otherwise the client is deleted |
| LacewingServer.Server.StreamClosed | src/windows/server.c:122-126 | Closing fires every close hook in reverse registration order, with on_client_close last, and then has on_client_close's effect |
| LacewingServer.Server.ConnectHeld | src/windows/server.c:275-278 | The client is held across on_connect, so a close from the handler does not delete it; user_count is 1 afterwards, on_connect saw it exactly when set, it is closed exactly when the handler closed it, and its socket and SSL wrapper are untouched |
| LacewingServer.Server.CloseWhileHeld | src/windows/server.c:277-278 | A close from on_connect fires only on_client_close, which finds the client held: it stays unfreed, unlisted, not dead, with user_count 1, its socket and an unreleased SSL wrapper |
| LacewingServer.Server.Enlist | src/windows/server.c:286-297 | The client is appended once at the back, the list stays distinct, user_count drops back to 0, and it is hooked and reading exactly when on_data is set |
| LacewingServer.Server.Admit | src/windows/server.c:261-297 | Either nothing, when allocation fails, or a fresh client: appended once at the back, user_count back to 0, still holding its socket and an unreleased SSL wrapper, hooked and reading exactly when on_data is set |
| LacewingServer.Server.ListenSocketCompletion | src/windows/server.c:221-298 | The counter drops by one on every completion. An error completion changes nothing else. Otherwise the pool is replenished and the accepted client admitted with its socket and SSL wrapper intact; the invariant (0..16, distinct list) is kept |
| LacewingServer.Server.OnData | src/windows/server.c:779-805 | The handler is stored. Clearing it unhooks every listed client; setting it changes no client. Nothing else about a client changes |
| LacewingServer.Server.OnClientData | src/windows/server.c:759-767 | Only a hooked, listed client delivers data, and the data handler is then set, so the assert holds; the data reaches the handler |
| LacewingServer.Server.Unhost | src/windows/server.c:347-354 | Afterwards the server is not hosting; the listening socket is closed once, only if it was hosting |
| LacewingServer.Server.HostFilter | src/windows/server.c:310-345 | Unhosts first. Socket failure reports the error and leaves the server not hosting. Listen failure reports it but leaves the server hosting with no new accept posted. Otherwise the pool is topped up until it reaches 16 or a post fails, and exactly the new posts belong to the live socket |
| LacewingServer.Server.FindAndAcquire | src/windows/server.c:488-570 | The subject is looked up with the first encoding, and with the other only after that fails (both are tried before CertNotFound); certLoaded is set, with the given protocol mask, only when a certificate is found and credentials are acquired |
| LacewingServer.Server.LoadSysCert | src/windows/server.c:371-570 | Refused with no change to the loaded flag, the credential mask, the stores opened or the lookups while hosting or loaded. An unknown location fails with certLoaded unchanged and nothing opened. Otherwise the store opened is the looked-up location and the defaulted store name, the lookup tries X.509 first, and certLoaded becomes true only on full success, with the mask 0xC0; any failure leaves the mask as it was |
| LacewingServer.Server.LoadFromStore | src/windows/server.c:464-569 | The system store opened is the given location and store name; a store that opens is searched X.509 first; certLoaded becomes true only on full success, with the mask 0xC0, and a failure is one of store-open, not-found or credentials, reported once, and leaves the mask as it was |
| LacewingServer.Server.LoadFromFile | src/windows/server.c:600-720 | The file store is opened as X.509, then as PKCS #7; the search tries first the encoding of the store that opened; certLoaded becomes true only on full success, with the mask 0xF0, and a failure is one of file-open, not-found or credentials, reported once, and leaves the mask as it was |
| LacewingServer.Server.OpenCertFile | src/windows/server.c:599-626 | The file is opened as X.509 first, then as PKCS #7 only if that failed |
| LacewingServer.Server.ReleaseForLoad | src/windows/server.c:591-598 | The server stops hosting and any loaded credential is freed, once |
| LacewingServer.Server.LoadCertFile | src/windows/server.c:572-721 | A missing file fails with no change to the socket, the accept counts, the credential, the stores opened or the lookups. Otherwise the server is unhosted, the credential dropped, and certLoaded ends true only when loading fully succeeds, with the mask 0xF0; any failure leaves the mask as it was |
| LacewingServer.Server.ReloadFromFile | src/windows/server.c:591-720 | With the file present: the server is unhosted and any credential freed, then certLoaded ends true only when loading from the file fully succeeds, with the mask 0xF0 |
| ServerScenarios.UnhostTwice | src/windows/server.c:347-354 | Unhosting twice closes the socket at most once and leaves the server not hosting |
| ServerScenarios.UserHookBeforeLifecycle | src/windows/server.c:122-126 | A user hook fires before on_client_close; the unheld client is then freed but stays listed, and the client count is unchanged |
| ServerScenarios.RehostBeforeDrainStarves | src/windows/server.c:227-233 | Re-hosting with 16 old accepts pending posts none; after they complete with errors the server reports hosting with no accept outstanding |

## Left out

- The Winsock calls the server branches on are success/failure oracles in `Platform`: socket creation, `WSASocket`, `AcceptEx`, `listen`. `closesocket` on the listening socket is not a call in the model but a ghost record, `closedSockets`. `closesocket` on an accepted socket whose client could not be allocated (line 265) is left out, because no model state depends on it. `setsockopt (SO_UPDATE_ACCEPT_CONTEXT)` and `GetAcceptExSockaddrs` are left out for the same reason.
- `lw_pump_add` and the completion port: completions are delivered one at a time, by calls to `ListenSocketCompletion`. The source takes no locks and the model assumes no concurrency.
- CryptoAPI and Schannel: `CertOpenStore`, `CertFindCertificateInStore` and `AcquireCredentialsHandleA` are oracles in `Platform`. Only their effect on `cert_loaded` and the protocol mask is modelled, plus a ghost record of the stores opened (`storeOpens`). `FreeCredentialsHandle` is not a call in the model but a ghost counter, `credentialsFreed`.
- `lwp_winsslclient_new` and its deletion are not calls in the model: they are reduced to the client's `hasSsl` flag and a ghost release mark, `sslReleased`.
- The fdstream: only a per-client close-hook sequence, a data-hook flag and a "read issued" flag are kept. A user close hook is an opaque id whose code is not run.
- Address objects (`lwp_addr_new_sockaddr`, `lw_server_client_addr`), error-object construction and message text, and `lwp_trace` are left out; errors are a datatype of kinds.
- Memory management is reduced to a ghost `freed` flag per client. The leaks at lines 212-213 (a failed `AcceptEx`) and 314 (the error object) are not modelled.
- `lw_server_new` is modelled only for the case where its `calloc` succeeds; the pump argument is dropped.
- `lw_server_delete`, the tag get/set functions, the NPN functions (lines 728-742), `lw_server_port`, `lw_server_host (port)` (a filter wrapper) and the `lwp_def_hook` handler setters are left out. The handlers are plain boolean fields of `Server`.
- ListenSocketCompletion: the connect handler is modelled only as "closes the client it is handed or not"; anything else it could do is not modelled.
- ListenSocketCompletion: whether a completion reports an error is a parameter. Only completions that belong to a listening socket no longer live are forced to report one. The model therefore cannot produce an accept that succeeded before `lw_server_unhost` and is delivered without an error after it: in the source that completion runs the replenish loop with `socket == -1` and admits a client into a server that is no longer hosting. `Valid` keeps `liveAccepts == 0` while not hosting, and that state is outside it.
- CertLocation.LocationIdIsTableLookup: strings are sequences of characters without embedded NUL; `strcasecmp` is modelled as ASCII case folding in the C locale.
