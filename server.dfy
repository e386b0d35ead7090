/** The Windows overlapped-I/O TCP server of src/windows/server.c: the pool
    of posted accepts, the client lifecycle around its close hook, and the
    server facade (hosting, the data handler, certificate loading). User
    handlers are recorded, not run; what a connect handler may do to the
    client it is handed is a parameter of the accept completion. */
module LacewingServer {
  import opened Wrappers
  import opened CloseHooks
  import AcceptPool
  import ClientList
  import CertLocation
  import Platform

  /** INVALID_SOCKET, INVALID_HANDLE_VALUE, and the `socket == -1` of a
      server that is not hosting. */
  const InvalidHandle: int := -1

  /** The errors the server hands to its on_error handler. */
  datatype ServerError =
    | SocketCreateFailed
    | ListenFailed
    | AlreadyHostingOrLoaded
    | UnknownCertLocation(location: string)
    | CertStoreOpenFailed
    | CertNotFound
    | CredentialsFailed
    | CertFileNotFound(filename: string)
    | CertFileOpenFailed(filename: string)

  /** The Schannel protocol masks of the two loaders: TLS 1.0 alone for a
      system-store certificate, SSL 3.0 and TLS 1.0 for a certificate file. */
  const SysCertProtocols: bv32 := 0x80 | 0x40
  const FileCertProtocols: bv32 := 0xF0

  /** How far lw_server_host_filter got. */
  datatype HostOutcome = NoSocket | NotListening | Listening(trace: seq<bool>)

  /** A call of CertOpenStore: a system store by location id and name, or a
      certificate file opened as X.509 or as PKCS #7. */
  datatype StoreOpen = SystemStore(locationId: int, storeName: string) | FileStore(filename: string, pkcs7: bool)

  /** The subject lookups one certificate search adds to a record of
      encodings tried (true for PKCS #7): the first encoding, and the other
      one only after it. */
  ghost predicate SearchedWith(before: seq<bool>, after: seq<bool>, first: bool)
  {
    after == before + [first] || after == before + [first, !first]
  }

  /** struct lw_server_client. */
  class Client {
    /** client->server */
    const server: Server
    /** Callers that hold the client beyond the current call. */
    var userCount: int
    var onConnectCalled: bool
    var dead: bool
    /** client->ssl != NULL */
    var hasSsl: bool
    /** client->socket: zero from calloc, INVALID_HANDLE_VALUE once terminated. */
    var socket: int
    /** The stream's close hooks in registration order. */
    var closeHooks: seq<CloseHook>
    /** The close hooks the stream has called, in call order. */
    var firedHooks: seq<CloseHook>
    /** The stream has reported closure. */
    var closed: bool
    /** on_client_data is the stream's data hook. */
    var dataHooked: bool
    /** lw_stream_read (client, -1) has been issued. */
    var reading: bool
    /** free (client) has run. */
    ghost var freed: bool
    /** lwp_winsslclient_delete (client->ssl) has run. */
    ghost var sslReleased: bool

    /** The state lwp_server_client_new leaves a client in. */
    ghost predicate IsNew()
      reads this
    {
      && userCount == 0 && !onConnectCalled && !dead && socket == 0
      && closeHooks == [Lifecycle] && firedHooks == [] && !closed
      && !dataHooked && !reading && !freed && !sslReleased
    }

    /** Lines 113-133 once calloc has succeeded: zeroed fields, then the
        lifecycle close hook registered before any other, then an SSL
        wrapper when the server has a certificate loaded. */
    constructor (server: Server, withSsl: bool)
      ensures this.server == server && IsNew() && hasSsl == withSsl
    {
      this.server := server;
      userCount, onConnectCalled, dead, socket := 0, false, false, 0;
      closeHooks, firedHooks, closed := [], [], false;
      dataHooked, reading := false, false;
      freed, sslReleased := false, false;
      hasSsl := false;
      new;
      closeHooks := closeHooks + [Lifecycle];
      if withSsl {
        hasSsl := true;
      }
    }

    /** lw_stream_add_hook_close from user code: one more close hook. */
    method AddCloseHook(id: nat)
      requires !freed
      modifies this`closeHooks
      ensures closeHooks == old(closeHooks) + [User(id)]
    {
      closeHooks := closeHooks + [User(id)];
    }
  }

  /** struct lw_server. */
  class Server {
    /** The listening socket, InvalidHandle when not hosting. */
    var socket: int
    /** Which of the four handlers are set. */
    var onConnect: bool
    var onDisconnect: bool
    var onData: bool
    var onError: bool
    var certLoaded: bool
    /** grbitEnabledProtocols of the credentials last acquired. */
    var credProtocols: bv32
    var acceptsPosted: int
    /** The live-client list in insertion order. */
    var clients: seq<Client>
    /** The calls made to on_connect, on_disconnect, on_error and the data
        handler, in order. */
    var connects: seq<Client>
    var disconnects: seq<Client>
    var errors: seq<ServerError>
    var received: seq<(Client, seq<bv8>)>
    /** Every client lwp_server_client_new has made for this server. */
    ghost var born: set<Client>
    /** How many of the posted accepts belong to the live listening
        socket; the others belong to sockets already closed, and complete
        with an error. */
    ghost var liveAccepts: nat
    /** The listening sockets passed to closesocket, in order. */
    ghost var closedSockets: seq<int>
    /** The calls of CertOpenStore, in order. */
    ghost var storeOpens: seq<StoreOpen>
    /** The encodings CertFindCertificateInStore was called with, in
        order; true for PKCS #7, false for X.509. */
    ghost var certFinds: seq<bool>
    /** The calls of FreeCredentialsHandle. */
    ghost var credentialsFreed: nat

    /** The accept pool stays within 0..16; only a hosting server has
        accepts on a live listening socket. */
    ghost predicate PoolValid()
      reads this`acceptsPosted, this`liveAccepts, this`socket
    {
      && 0 <= acceptsPosted <= AcceptPool.IdealPendingAcceptCount
      && liveAccepts <= acceptsPosted
      && (socket == InvalidHandle ==> liveAccepts == 0)
    }

    /** No client this server made ever has dead or on_connect_called set,
        and on_client_close stays its first and only lifecycle hook. */
    ghost predicate BornValid()
      reads this`born, born`onConnectCalled, born`dead, born`closeHooks
    {
      forall c :: c in born ==>
        c.server == this && !c.onConnectCalled && !c.dead && WellFormed(c.closeHooks)
    }

    /** The list holds distinct clients of this server; a listed client is
        held by nobody, or freed (and then its user_count was bumped once);
        a hooked client implies a data handler is set. */
    ghost predicate ListValid()
      reads this`clients, this`born, this`onData, clients`userCount, clients`freed, clients`dataHooked
    {
      && ClientList.Distinct(clients)
      && (forall c :: c in clients ==> c in born)
      && (forall c :: c in clients ==>
            c.userCount == (if c.freed then 1 else 0) && (c.dataHooked ==> onData))
    }

    /** What holds between the operations of this file. */
    ghost predicate Valid()
      reads this`acceptsPosted, this`liveAccepts, this`socket, this`clients, this`born
      reads this`onData, this`disconnects, born`onConnectCalled, born`dead, born`closeHooks
      reads clients`userCount, clients`freed, clients`dataHooked
    {
      && PoolValid() && BornValid() && ListValid()
      && socket >= InvalidHandle
      && disconnects == []
    }

    /** lw_server_new: not hosting, no clients, nothing posted or loaded. */
    constructor ()
      ensures Valid()
      ensures socket == InvalidHandle && clients == [] && acceptsPosted == 0 && !certLoaded
      ensures !onConnect && !onDisconnect && !onData && !onError
      ensures born == {} && liveAccepts == 0 && closedSockets == []
    {
      socket := InvalidHandle;
      onConnect, onDisconnect, onData, onError := false, false, false, false;
      certLoaded, credProtocols, acceptsPosted := false, 0, 0;
      clients, connects, disconnects, errors, received := [], [], [], [], [];
      born, liveAccepts := {}, 0;
      closedSockets, storeOpens, certFinds, credentialsFreed := [], [], [], 0;
    }

    /** lw_server_hosting. */
    function Hosting(): bool
      reads this
    {
      socket != InvalidHandle
    }

    /** lw_server_num_clients: list_length of the client list. */
    function NumClients(): nat
      reads this
    {
      |clients|
    }

    /** The count is the number of distinct clients listed: each listed
        client counts once. */
    lemma NumClientsCountsEachOnce()
      requires Valid()
      ensures NumClients() == |set c | c in clients|
    {
      ClientList.DistinctCount(clients);
    }

    /** lw_server_cert_loaded. */
    function CertLoaded(): bool
      reads this
    {
      certLoaded
    }

    /** The errors an on_error handler receives for e: e if one is set. */
    function Reported(e: ServerError): seq<ServerError>
      reads this
    {
      if onError then [e] else []
    }

    /** The error reporting of every failure path (line 319, and its
        copies in the certificate loaders): the on_error handler, when
        set, receives the error. */
    method ReportError(e: ServerError)
      modifies this`errors
      ensures errors == old(errors) + Reported(e)
    {
      if onError {
        errors := errors + [e];
      }
    }

    /** lw_server_client_first. */
    function ClientFirst(): (r: Option<Client>)
      reads this
      ensures r.Some? <==> clients != []
      ensures r.Some? ==> r.value in clients && ClientList.IndexOf(clients, r.value) == 0
    {
      ClientList.Front(clients)
    }

    /** lw_server_client_next: the client inserted right after c. */
    function ClientNext(c: Client): (r: Option<Client>)
      requires ClientList.Distinct(clients) && c in clients
      reads this
      ensures r.None? <==> c == clients[|clients| - 1]
      ensures r.Some? ==>
                r.value in clients &&
                ClientList.IndexOf(clients, r.value) == ClientList.IndexOf(clients, c) + 1
    {
      ClientList.NextIndex(clients, c);
      ClientList.Next(clients, c)
    }

    /** issue_accept: one more accept posted against the listening socket
        when allocation, WSASocket and AcceptEx all succeed; otherwise no
        change. */
    method IssueAccept() returns (ok: bool)
      modifies this`acceptsPosted, this`liveAccepts
      ensures acceptsPosted == old(acceptsPosted) + (if ok then 1 else 0)
      ensures liveAccepts == old(liveAccepts) + (if ok then 1 else 0)
    {
      var gotMemory := Platform.Calloc();
      if !gotMemory {
        return false;
      }
      var created := Platform.WsaSocket();
      if !created {
        return false;
      }
      // lwp_disable_ipv6_only changes no state of the model.
      var submitted := Platform.AcceptEx(socket);
      if !submitted {
        // The overlapped structure and its socket are not freed here.
        return false;
      }
      acceptsPosted := acceptsPosted + 1;
      liveAccepts := liveAccepts + 1;
      return true;
    }

    /** The loop of lines 235-237 and 342-344: post accepts until the pool
        is full or a post fails. */
    method Replenish() returns (trace: seq<bool>)
      requires Valid() && Hosting()
      modifies this`acceptsPosted, this`liveAccepts
      ensures Valid()
      ensures AcceptPool.IsReplenishTrace(old(acceptsPosted), trace)
      ensures acceptsPosted == old(acceptsPosted) + AcceptPool.Successes(trace)
      ensures liveAccepts == old(liveAccepts) + AcceptPool.Successes(trace)
    {
      trace := [];
      while acceptsPosted < AcceptPool.IdealPendingAcceptCount
        invariant acceptsPosted == old(acceptsPosted) + |trace|
        invariant forall i :: 0 <= i < |trace| ==> trace[i]
        invariant trace != [] ==> acceptsPosted <= AcceptPool.IdealPendingAcceptCount
        invariant liveAccepts == old(liveAccepts) + |trace|
        invariant Valid()
      {
        var ok := IssueAccept();
        if !ok {
          AcceptPool.FailedPostTrace(old(acceptsPosted), trace);
          trace := trace + [ok];
          break;
        }
        trace := trace + [ok];
      }
      if trace == [] || trace[|trace| - 1] {
        AcceptPool.AllPostedTrace(old(acceptsPosted), trace);
      }
    }

    /** What lwp_server_client_delete does to a client c. */
    twostate predicate Terminated(c: Client)
      reads this, c
    {
      && c.freed && c.sslReleased
      && c.socket == InvalidHandle
      && c.userCount == old(c.userCount) + 1
      && c.dead == old(c.dead)
      && if old(c.onConnectCalled) then
           && disconnects == old(disconnects) + (if onDisconnect then [c] else [])
           && clients == ClientList.Remove(old(clients), c)
         else
           clients == old(clients) && disconnects == old(disconnects)
    }

    /** What on_client_close does while someone still holds c. */
    twostate predicate Deferred(c: Client)
      reads this, c
    {
      && !c.dead
      && c.userCount == old(c.userCount) && c.freed == old(c.freed)
      && c.sslReleased == old(c.sslReleased) && c.socket == old(c.socket)
      && clients == old(clients) && disconnects == old(disconnects)
    }

    /** The hook, stream and SSL state of c is as it was. */
    twostate predicate StreamUnchanged(c: Client)
      reads c
    {
      && c.closeHooks == old(c.closeHooks) && c.dataHooked == old(c.dataHooked)
      && c.reading == old(c.reading) && c.hasSsl == old(c.hasSsl)
      && c.onConnectCalled == old(c.onConnectCalled)
    }

    /** lwp_server_client_new: a fresh client in its initial state, with an
        SSL wrapper exactly when a certificate is loaded; null when
        allocation fails. */
    method ClientNew() returns (c: Client?)
      requires Valid()
      modifies this`born
      ensures Valid()
      ensures c == null ==> born == old(born)
      ensures c != null ==>
                && fresh(c) && c.server == this && c.IsNew() && c.hasSsl == certLoaded
                && born == old(born) + {c}
    {
      var gotMemory := Platform.Calloc();
      if !gotMemory {
        return null;
      }
      c := new Client(this, certLoaded);
      born := born + {c};
    }

    /** lwp_server_client_delete: nothing for null; otherwise mark the
        socket invalid, call on_disconnect and unlink the client only if
        on_connect_called is set, release the SSL wrapper and free. */
    method ClientDelete(c: Client?)
      requires c != null ==> c.server == this && !c.freed
      modifies c, this`clients, this`disconnects
      ensures c == null ==> clients == old(clients) && disconnects == old(disconnects)
      ensures c != null ==> Terminated(c) && StreamUnchanged(c)
      ensures c != null ==> c.firedHooks == old(c.firedHooks) && c.closed == old(c.closed)
    {
      if c == null {
        return;
      }
      c.userCount := c.userCount + 1;
      c.socket := InvalidHandle;
      if c.onConnectCalled {
        if onDisconnect {
          disconnects := disconnects + [c];
        }
        clients := ClientList.Remove<Client>(clients, c);
      }
      c.sslReleased := true;
      c.freed := true;
    }

    /** on_client_close, the lifecycle close hook: with the client still
        held, it writes dead = false and keeps the client; otherwise it
        deletes the client. */
    method OnClientClose(c: Client)
      requires Valid() && c in born && !c.freed
      modifies c, this`clients, this`disconnects
      ensures Valid()
      ensures StreamUnchanged(c) && c.firedHooks == old(c.firedHooks) && c.closed == old(c.closed)
      ensures old(c.userCount) > 0 ==> Deferred(c)
      ensures old(c.userCount) <= 0 ==> Terminated(c)
    {
      if c.userCount > 0 {
        c.dead := false;
      } else {
        ClientDelete(c);
      }
    }

    /** The client's stream reports closure: the stream calls the close
        hooks first-registered-last-called, so on_client_close runs after
        every user hook. */
    method StreamClosed(c: Client)
      requires Valid() && c in born && !c.freed && !c.closed
      modifies c, this`clients, this`disconnects
      ensures Valid()
      ensures c.closed && StreamUnchanged(c)
      ensures c.firedHooks == old(c.firedHooks) + FiringOrder(old(c.closeHooks))
      ensures old(c.userCount) > 0 ==> Deferred(c)
      ensures old(c.userCount) <= 0 ==> Terminated(c)
    {
      c.closed := true;
      var hooks := c.closeHooks;
      var i := |hooks|;
      while i > 0
        invariant 0 <= i <= |hooks|
        invariant Valid() && c.closed && StreamUnchanged(c)
        invariant c.firedHooks == old(c.firedHooks) + FiringOrder(hooks)[..|hooks| - i]
        invariant i > 0 ==>
                    && !c.freed && c.userCount == old(c.userCount) && c.dead == old(c.dead)
                    && c.sslReleased == old(c.sslReleased) && c.socket == old(c.socket)
                    && clients == old(clients) && disconnects == old(disconnects)
        invariant i == 0 ==> if old(c.userCount) > 0 then Deferred(c) else Terminated(c)
      {
        i := i - 1;
        var h := hooks[i];
        assert FiringOrder(hooks)[..|hooks| - i] == FiringOrder(hooks)[..|hooks| - i - 1] + [h];
        c.firedHooks := c.firedHooks + [h];
        if h == Lifecycle {
          OnClientClose(c);
        }
        // A user hook runs code outside this model.
      }
    }

    /** The effect of one accepted connection: nothing when no client could
        be made; otherwise a fresh client, listed last, reported to
        on_connect when that handler is set, and hooked to the data handler
        when that one is set. It is closed exactly when the connect handler
        closed it, in which case only the lifecycle hook has fired and the
        client stays listed and unfreed. */
    twostate predicate Admitted(new client: Client?, handlerCloses: bool)
      reads this, client
    {
      if client == null then
        clients == old(clients) && connects == old(connects) && born == old(born)
      else
        && fresh(client) && client.server == this
        && born == old(born) + {client}
        && clients == old(clients) + [client]
        && connects == old(connects) + (if onConnect then [client] else [])
        && client.userCount == 0 && !client.dead && !client.onConnectCalled && !client.freed
        && client.hasSsl == certLoaded && client.closeHooks == [Lifecycle]
        && client.socket == 0 && !client.sslReleased
        && client.closed == (onConnect && handlerCloses)
        && client.firedHooks == (if onConnect && handlerCloses then [Lifecycle] else [])
        && client.dataHooked == onData && client.reading == onData
    }

    /** listen_socket_completion for one posted accept, on the live
        listening socket or on one already closed; an accept on a closed
        socket completes with an error. `handlerCloses` says whether the
        connect handler closes the client it is handed. */
    method ListenSocketCompletion(ghost live: bool, error: bool, handlerCloses: bool)
      returns (client: Client?, trace: seq<bool>)
      requires Valid()
      requires if live then liveAccepts > 0 else acceptsPosted > liveAccepts
      requires !live ==> error
      modifies this`acceptsPosted, this`liveAccepts, this`clients, this`connects
      modifies this`born, this`disconnects
      ensures Valid()
      ensures acceptsPosted == old(acceptsPosted) - 1 + AcceptPool.Successes(trace)
      ensures liveAccepts == old(liveAccepts) - (if live then 1 else 0) + AcceptPool.Successes(trace)
      ensures error ==> trace == [] && client == null
      ensures !error ==> AcceptPool.IsReplenishTrace(old(acceptsPosted) - 1, trace)
      ensures disconnects == old(disconnects)
      ensures Admitted(client, handlerCloses)
    {
      acceptsPosted := acceptsPosted - 1;
      if live {
        liveAccepts := liveAccepts - 1;
      }
      client, trace := null, [];
      if error {
        return;
      }
      trace := Replenish();
      // setsockopt (SO_UPDATE_ACCEPT_CONTEXT) and GetAcceptExSockaddrs change
      // no state of the model.
      client := Admit(handlerCloses);
    }

    /** Lines 256-278: the new client is held across on_connect, which may
        close it. */
    method ConnectHeld(c: Client, handlerCloses: bool)
      requires Valid() && c in born && c !in clients && c.IsNew()
      modifies c, this`clients, this`connects, this`disconnects
      ensures Valid()
      ensures clients == old(clients) && disconnects == old(disconnects)
      ensures connects == old(connects) + (if onConnect then [c] else [])
      ensures c.userCount == 1 && !c.dead && !c.onConnectCalled && !c.freed
      ensures c.hasSsl == old(c.hasSsl) && c.closeHooks == [Lifecycle] && !c.dataHooked && !c.reading
      ensures c.socket == old(c.socket) && c.sslReleased == old(c.sslReleased)
      ensures c.closed == (onConnect && handlerCloses)
      ensures c.firedHooks == (if onConnect && handlerCloses then [Lifecycle] else [])
    {
      c.userCount := c.userCount + 1;
      if onConnect {
        connects := connects + [c];
        if handlerCloses {
          CloseWhileHeld(c);
        }
      }
    }

    /** on_connect closing the client it is handed: only the lifecycle hook
        is registered, and it finds the client held, so the client is kept,
        unfreed and unlisted. */
    method CloseWhileHeld(c: Client)
      requires Valid() && c in born && c !in clients
      requires c.userCount == 1 && !c.freed && !c.closed
      requires c.closeHooks == [Lifecycle] && c.firedHooks == []
      modifies c, this`clients, this`disconnects
      ensures Valid()
      ensures clients == old(clients) && disconnects == old(disconnects)
      ensures c.closed && c.firedHooks == [Lifecycle] && StreamUnchanged(c)
      ensures c.userCount == 1 && !c.dead && !c.freed
      ensures c.socket == old(c.socket) && c.sslReleased == old(c.sslReleased)
    {
      StreamClosed(c);
      assert FiringOrder([Lifecycle]) == [Lifecycle];
    }

    /** Lines 246-296 of listen_socket_completion: make a client for the
        accepted socket, call on_connect with the client held, list it,
        and hook the data handler when one is set. */
    method Admit(handlerCloses: bool) returns (client: Client?)
      requires Valid()
      modifies this`clients, this`connects, this`born, this`disconnects
      ensures Valid()
      ensures disconnects == old(disconnects)
      ensures Admitted(client, handlerCloses)
    {
      client := ClientNew();
      if client == null {
        // closesocket on the accepted socket.
        return;
      }
      assert client !in clients;
      ConnectHeld(client, handlerCloses);
      if client.dead {
        // Lines 280-284: dead is never true, so the client is never deleted here.
        assert false;
      }
      Enlist(client);
    }

    /** Lines 286-297: list the client, release the hold on it, and hook the
        data handler to it when one is set. */
    method Enlist(c: Client)
      requires Valid() && c in born && c !in clients
      requires c.userCount == 1 && !c.freed && !c.dataHooked && !c.reading
      modifies this`clients, c`userCount, c`dataHooked, c`reading
      ensures Valid()
      ensures clients == old(clients) + [c] && c.userCount == 0
      ensures c.dataHooked == onData && c.reading == onData
    {
      ClientList.PushKeepsDistinct(clients, c);
      clients := clients + [c];
      c.userCount := c.userCount - 1;
      if onData {
        c.dataHooked := true;
        c.reading := true;
      }
    }

    /** Every field of c but its data hook is as it was. */
    twostate predicate OnlyDataHookChanged(c: Client)
      reads c
    {
      && c.userCount == old(c.userCount) && c.onConnectCalled == old(c.onConnectCalled)
      && c.dead == old(c.dead) && c.hasSsl == old(c.hasSsl) && c.socket == old(c.socket)
      && c.closeHooks == old(c.closeHooks) && c.firedHooks == old(c.firedHooks)
      && c.closed == old(c.closed) && c.reading == old(c.reading)
      && c.freed == old(c.freed) && c.sslReleased == old(c.sslReleased)
    }

    /** lw_server_on_data: stores the handler; clearing it unhooks every
        listed client, while setting it changes no client (the test at 787
        reads the field just written at 781). */
    method OnData(handler: bool)
      requires Valid()
      modifies this`onData, clients
      ensures Valid()
      ensures onData == handler
      ensures forall c :: c in clients ==> OnlyDataHookChanged(c)
      ensures handler ==> forall c :: c in clients ==> c.dataHooked == old(c.dataHooked)
      ensures !handler ==> forall c :: c in clients ==> !c.dataHooked
    {
      onData := handler;
      if handler {
        if !onData {
          // Lines 789-793: the loop that would hook every listed client.
          assert false;
        }
        return;
      }
      var i := 0;
      while i < |clients|
        invariant 0 <= i <= |clients|
        invariant onData == handler
        invariant forall k :: 0 <= k < i ==> !clients[k].dataHooked
        invariant forall c :: c in clients ==> OnlyDataHookChanged(c)
        invariant forall c :: c in born ==>
                    c.server == this && !c.onConnectCalled && !c.dead && WellFormed(c.closeHooks)
      {
        clients[i].dataHooked := false;
        i := i + 1;
      }
    }

    /** on_client_data: only a hooked, listed client delivers data, and then
        the data handler is set (the assertion at line 764 holds). */
    method OnClientData(c: Client, data: seq<bv8>)
      requires Valid() && c in clients && c.dataHooked
      modifies this`received
      ensures Valid()
      ensures received == old(received) + [(c, data)]
    {
      assert onData;
      received := received + [(c, data)];
    }

    /** lw_server_unhost: closes the listening socket once; afterwards the
        server is not hosting. */
    method Unhost()
      requires Valid()
      modifies this`socket, this`closedSockets, this`liveAccepts
      ensures Valid()
      ensures !Hosting() && liveAccepts == 0
      ensures closedSockets == old(closedSockets) + (if old(Hosting()) then [old(socket)] else [])
    {
      if !Hosting() {
        return;
      }
      closedSockets := closedSockets + [socket];
      socket, liveAccepts := InvalidHandle, 0;
    }

    /** lw_server_host_filter: unhost, create and bind a listening socket,
        listen, and fill the accept pool. A failed listen reports an error
        but leaves the socket in place, so the server reports hosting. */
    method HostFilter() returns (outcome: HostOutcome)
      requires Valid()
      modifies this`socket, this`closedSockets, this`errors
      modifies this`acceptsPosted, this`liveAccepts
      ensures Valid()
      ensures closedSockets == old(closedSockets) + (if old(Hosting()) then [old(socket)] else [])
      ensures outcome.NoSocket? ==>
                && !Hosting() && errors == old(errors) + Reported(SocketCreateFailed)
      ensures !outcome.NoSocket? ==> Hosting()
      ensures outcome.NotListening? ==> errors == old(errors) + Reported(ListenFailed)
      ensures !outcome.Listening? ==>
                acceptsPosted == old(acceptsPosted) && liveAccepts == 0
      ensures outcome.Listening? ==>
                && errors == old(errors)
                && AcceptPool.IsReplenishTrace(old(acceptsPosted), outcome.trace)
                && acceptsPosted == old(acceptsPosted) + AcceptPool.Successes(outcome.trace)
                && liveAccepts == AcceptPool.Successes(outcome.trace)
    {
      Unhost();
      var created, handle := Platform.CreateServerSocket();
      socket := if created then handle else InvalidHandle;
      if socket == InvalidHandle {
        ReportError(SocketCreateFailed);
        return NoSocket;
      }
      var listening := Platform.Listen(socket);
      if !listening {
        ReportError(ListenFailed);
        return NotListening;
      }
      // lw_pump_add registers the socket with the completion port.
      var trace := Replenish();
      return Listening(trace);
    }

    /** The common tail of both certificate loaders: look the subject up
        with one encoding, then the other, and acquire inbound Schannel
        credentials for the certificate found with the given protocol mask.
        Only success sets certLoaded and records the mask. */
    method FindAndAcquire(commonName: Option<string>, pkcs7First: bool, protocols: bv32)
      returns (ok: bool, failure: Option<ServerError>)
      modifies this`certLoaded, this`errors, this`credProtocols, this`certFinds
      ensures ok <==> failure.None?
      ensures errors == old(errors) + (if failure.Some? then Reported(failure.value) else [])
      ensures failure.Some? ==> failure.value in {CertNotFound, CredentialsFailed}
      ensures ok ==> certLoaded && credProtocols == protocols
      ensures !ok ==> certLoaded == old(certLoaded) && credProtocols == old(credProtocols)
      ensures SearchedWith(old(certFinds), certFinds, pkcs7First)
      ensures failure == Some(CertNotFound) ==> certFinds == old(certFinds) + [pkcs7First, !pkcs7First]
    {
      certFinds := certFinds + [pkcs7First];
      var found := Platform.CertFindCertificate(commonName, pkcs7First);
      if !found {
        certFinds := certFinds + [!pkcs7First];
        found := Platform.CertFindCertificate(commonName, !pkcs7First);
        if !found {
          failure := Some(CertNotFound);
          ReportError(failure.value);
          return false, failure;
        }
      }
      var acquired := Platform.AcquireCredentials();
      if !acquired {
        failure := Some(CredentialsFailed);
        ReportError(failure.value);
        return false, failure;
      }
      certLoaded, credProtocols := true, protocols;
      return true, None;
    }

    /** lw_server_load_sys_cert: refused while hosting or loaded; otherwise
        the location and store default, the location name is looked up,
        and certLoaded becomes true only when the store opens, a
        certificate is found and credentials are acquired. */
    method LoadSysCert(storeName: Option<string>, commonName: Option<string>, location: Option<string>)
      returns (ok: bool, failure: Option<ServerError>)
      requires Valid()
      modifies this`certLoaded, this`errors, this`storeOpens, this`credProtocols, this`certFinds
      ensures Valid()
      ensures ok <==> failure.None?
      ensures !ok ==> credProtocols == old(credProtocols)
      ensures errors == old(errors) + (if failure.Some? then Reported(failure.value) else [])
      ensures old(Hosting() || certLoaded) ==>
                && failure == Some(AlreadyHostingOrLoaded)
                && certLoaded == old(certLoaded) && storeOpens == old(storeOpens)
                && credProtocols == old(credProtocols) && certFinds == old(certFinds)
      ensures !old(Hosting() || certLoaded) ==> certLoaded == ok
      ensures ok ==> credProtocols == SysCertProtocols
      ensures !old(Hosting() || certLoaded) &&
              CertLocation.LocationId(CertLocation.EffectiveLocation(location)).None? ==>
                && failure == Some(UnknownCertLocation(CertLocation.EffectiveLocation(location)))
                && storeOpens == old(storeOpens) && certFinds == old(certFinds)
      ensures !old(Hosting() || certLoaded) &&
              CertLocation.LocationId(CertLocation.EffectiveLocation(location)).Some? ==>
                && storeOpens == old(storeOpens) +
                     [SystemStore(CertLocation.LocationId(CertLocation.EffectiveLocation(location)).value,
                                  CertLocation.EffectiveStore(storeName))]
                && (failure.Some? ==> failure.value in {CertStoreOpenFailed, CertNotFound, CredentialsFailed})
                && (if failure == Some(CertStoreOpenFailed) then certFinds == old(certFinds)
                    else SearchedWith(old(certFinds), certFinds, false))
    {
      if Hosting() || certLoaded {
        failure := Some(AlreadyHostingOrLoaded);
        ReportError(failure.value);
        return false, failure;
      }
      var loc := CertLocation.EffectiveLocation(location);
      var store := CertLocation.EffectiveStore(storeName);
      var id := CertLocation.LocationId(loc);
      if id.None? {
        failure := Some(UnknownCertLocation(loc));
        ReportError(failure.value);
        return false, failure;
      }
      ok, failure := LoadFromStore(id.value, store, commonName);
    }

    /** Lines 464-569: open the system store, then find the subject in it
        and acquire credentials; each failure is reported once. */
    method LoadFromStore(locationId: int, store: string, commonName: Option<string>)
      returns (ok: bool, failure: Option<ServerError>)
      modifies this`certLoaded, this`errors, this`storeOpens, this`credProtocols, this`certFinds
      ensures ok <==> failure.None?
      ensures !ok ==> credProtocols == old(credProtocols)
      ensures errors == old(errors) + (if failure.Some? then Reported(failure.value) else [])
      ensures certLoaded == (old(certLoaded) || ok)
      ensures storeOpens == old(storeOpens) + [SystemStore(locationId, store)]
      ensures failure.Some? ==> failure.value in {CertStoreOpenFailed, CertNotFound, CredentialsFailed}
      ensures ok ==> credProtocols == SysCertProtocols
      ensures if failure == Some(CertStoreOpenFailed) then certFinds == old(certFinds)
              else SearchedWith(old(certFinds), certFinds, false)
    {
      storeOpens := storeOpens + [SystemStore(locationId, store)];
      var storeOpen := Platform.CertOpenStore();
      if !storeOpen {
        failure := Some(CertStoreOpenFailed);
        ReportError(failure.value);
        return false, failure;
      }
      ok, failure := FindAndAcquire(commonName, false, SysCertProtocols);
    }

    /** Lines 599-626: open the file as an X.509 store, and failing that as
        a PKCS #7 one; pkcs7 says which encoding was tried last. */
    method OpenCertFile(filename: string) returns (storeOpen: bool, pkcs7: bool)
      modifies this`storeOpens
      ensures !pkcs7 ==> storeOpen && storeOpens == old(storeOpens) + [FileStore(filename, false)]
      ensures pkcs7 ==> storeOpens == old(storeOpens) + [FileStore(filename, false), FileStore(filename, true)]
    {
      storeOpens := storeOpens + [FileStore(filename, false)];
      storeOpen := Platform.CertOpenStore();
      pkcs7 := false;
      if !storeOpen {
        storeOpens := storeOpens + [FileStore(filename, true)];
        storeOpen := Platform.CertOpenStore();
        pkcs7 := true;
      }
    }

    /** Lines 591-597: stop hosting and free any loaded credential. */
    method ReleaseForLoad()
      requires Valid()
      modifies this`socket, this`closedSockets, this`liveAccepts, this`certLoaded, this`credentialsFreed
      ensures Valid()
      ensures !Hosting() && !certLoaded
      ensures closedSockets == old(closedSockets) + (if old(Hosting()) then [old(socket)] else [])
      ensures credentialsFreed == old(credentialsFreed) + (if old(certLoaded) then 1 else 0)
    {
      if Hosting() {
        Unhost();
      }
      if certLoaded {
        credentialsFreed := credentialsFreed + 1;
        certLoaded := false;
      }
    }

    /** lw_server_load_cert_file: a missing file changes nothing; past that
        check the server stops hosting and drops any loaded credential, and
        certLoaded becomes true only when a certificate is found in the
        file and credentials are acquired. */
    method LoadCertFile(filename: string, commonName: Option<string>)
      returns (ok: bool, failure: Option<ServerError>)
      requires Valid()
      modifies this`socket, this`closedSockets, this`liveAccepts, this`certLoaded, this`errors
      modifies this`storeOpens, this`credentialsFreed, this`credProtocols, this`certFinds
      ensures Valid()
      ensures ok <==> failure.None?
      ensures !ok ==> credProtocols == old(credProtocols)
      ensures errors == old(errors) + (if failure.Some? then Reported(failure.value) else [])
      ensures failure == Some(CertFileNotFound(filename)) ==>
                && socket == old(socket) && closedSockets == old(closedSockets)
                && certLoaded == old(certLoaded) && storeOpens == old(storeOpens)
                && credentialsFreed == old(credentialsFreed)
                && liveAccepts == old(liveAccepts) && credProtocols == old(credProtocols)
                && certFinds == old(certFinds)
      ensures failure != Some(CertFileNotFound(filename)) ==>
                && !Hosting()
                && closedSockets == old(closedSockets) + (if old(Hosting()) then [old(socket)] else [])
                && credentialsFreed == old(credentialsFreed) + (if old(certLoaded) then 1 else 0)
                && certLoaded == ok
                && (|| storeOpens == old(storeOpens) + [FileStore(filename, false)]
                    || storeOpens == old(storeOpens) + [FileStore(filename, false), FileStore(filename, true)])
                && (failure.Some? ==>
                      failure.value in {CertFileOpenFailed(filename), CertNotFound, CredentialsFailed})
      ensures ok ==> credProtocols == FileCertProtocols
    {
      var present := Platform.FileExists(filename);
      if !present {
        failure := Some(CertFileNotFound(filename));
        ReportError(failure.value);
        return false, failure;
      }
      ok, failure := ReloadFromFile(filename, commonName);
    }

    /** Lines 591-720, once the file is known to exist: stop hosting, drop
        any loaded credential, then load from the file. */
    method ReloadFromFile(filename: string, commonName: Option<string>)
      returns (ok: bool, failure: Option<ServerError>)
      requires Valid()
      modifies this`socket, this`closedSockets, this`liveAccepts, this`certLoaded, this`errors
      modifies this`storeOpens, this`credentialsFreed, this`credProtocols, this`certFinds
      ensures Valid()
      ensures ok <==> failure.None?
      ensures ok ==> credProtocols == FileCertProtocols
      ensures !ok ==> credProtocols == old(credProtocols)
      ensures errors == old(errors) + (if failure.Some? then Reported(failure.value) else [])
      ensures !Hosting()
      ensures closedSockets == old(closedSockets) + (if old(Hosting()) then [old(socket)] else [])
      ensures credentialsFreed == old(credentialsFreed) + (if old(certLoaded) then 1 else 0)
      ensures certLoaded == ok
      ensures || storeOpens == old(storeOpens) + [FileStore(filename, false)]
              || storeOpens == old(storeOpens) + [FileStore(filename, false), FileStore(filename, true)]
      ensures failure.Some? ==> failure.value in {CertFileOpenFailed(filename), CertNotFound, CredentialsFailed}
    {
      ReleaseForLoad();
      ok, failure := LoadFromFile(filename, commonName);
    }

    /** Lines 600-720: open the certificate file, then find the subject in
        it and acquire credentials; each failure is reported once. */
    method LoadFromFile(filename: string, commonName: Option<string>)
      returns (ok: bool, failure: Option<ServerError>)
      modifies this`certLoaded, this`errors, this`storeOpens, this`credProtocols, this`certFinds
      ensures ok <==> failure.None?
      ensures !ok ==> credProtocols == old(credProtocols)
      ensures errors == old(errors) + (if failure.Some? then Reported(failure.value) else [])
      ensures certLoaded == (old(certLoaded) || ok)
      ensures || storeOpens == old(storeOpens) + [FileStore(filename, false)]
              || storeOpens == old(storeOpens) + [FileStore(filename, false), FileStore(filename, true)]
      ensures failure.Some? ==> failure.value in {CertFileOpenFailed(filename), CertNotFound, CredentialsFailed}
      ensures ok ==> credProtocols == FileCertProtocols
      ensures failure == Some(CertFileOpenFailed(filename)) ==>
                storeOpens == old(storeOpens) + [FileStore(filename, false), FileStore(filename, true)]
                && certFinds == old(certFinds)
      ensures storeOpens == old(storeOpens) + [FileStore(filename, false)] ==>
                SearchedWith(old(certFinds), certFinds, false)
      ensures storeOpens != old(storeOpens) + [FileStore(filename, false)] &&
              failure != Some(CertFileOpenFailed(filename)) ==>
                SearchedWith(old(certFinds), certFinds, true)
    {
      var storeOpen, pkcs7 := OpenCertFile(filename);
      if !storeOpen {
        failure := Some(CertFileOpenFailed(filename));
        ReportError(failure.value);
        return false, failure;
      }
      ok, failure := FindAndAcquire(commonName, pkcs7, FileCertProtocols);
    }
  }
}
