/** Sequences of server operations that exhibit what src/windows/server.c
    does as written. */
module ServerScenarios {
  import opened CloseHooks
  import AcceptPool
  import opened LacewingServer

  /** lw_server_unhost twice in a row closes the listening socket at most
      once and leaves the server not hosting. */
  method UnhostTwice(s: Server)
    requires s.Valid()
    modifies s`socket, s`closedSockets, s`liveAccepts
    ensures s.Valid() && !s.Hosting()
    ensures s.closedSockets == old(s.closedSockets) + (if old(s.Hosting()) then [old(s.socket)] else [])
  {
    s.Unhost();
    s.Unhost();
  }

  /** A user close hook added to a listed client runs before the lifecycle
      hook; the client, closed with nobody holding it, is freed but stays
      in the client list, because on_connect_called is never set. */
  method UserHookBeforeLifecycle(s: Server, c: Client, id: nat)
    requires s.Valid() && c in s.clients && !c.freed && !c.closed
    requires c.closeHooks == [Lifecycle] && c.firedHooks == []
    modifies c, s`clients, s`disconnects
    ensures s.Valid()
    ensures c.firedHooks == [User(id), Lifecycle]
    ensures c.freed && c in s.clients && s.clients == old(s.clients)
    ensures s.NumClients() == old(s.NumClients())
  {
    c.AddCloseHook(id);
    AddUserKeepsWellFormed([Lifecycle], id);
    s.StreamClosed(c);
    assert FiringOrder([Lifecycle, User(id)]) == [User(id), Lifecycle];
  }

  /** Re-hosting while all 16 accepts of the old listening socket are still
      pending: host_filter posts nothing because the counter is still at the
      ideal count, and when the old accepts then complete with errors the
      counter drains to zero without a repost. The server is hosting with no
      accept outstanding, so it accepts no further connection. */
  method RehostBeforeDrainStarves(s: Server)
    requires s.Valid() && s.Hosting()
    requires s.acceptsPosted == AcceptPool.IdealPendingAcceptCount
    modifies s`socket, s`closedSockets, s`errors, s`acceptsPosted
    modifies s`liveAccepts, s`clients, s`connects, s`born, s`disconnects
    ensures s.Valid()
    ensures s.Hosting() ==> s.acceptsPosted == 0 && s.liveAccepts == 0
  {
    s.Unhost();
    var outcome := s.HostFilter();
    if outcome.Listening? {
      AcceptPool.FullPoolPostsNothing(AcceptPool.IdealPendingAcceptCount, outcome.trace);
    }
    var k := 0;
    while k < AcceptPool.IdealPendingAcceptCount
      invariant 0 <= k <= AcceptPool.IdealPendingAcceptCount
      invariant s.Valid() && s.liveAccepts == 0
      invariant s.acceptsPosted == AcceptPool.IdealPendingAcceptCount - k
    {
      var client, trace := s.ListenSocketCompletion(false, true, false);
      k := k + 1;
    }
  }
}
