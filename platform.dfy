/** Stand-ins for the operating-system and library calls the server makes.
    Each one succeeds or fails nondeterministically; nothing else about it is
    modelled. The arguments are those the source passes, kept so the callers
    read like the source. */
module Platform {
  import opened Wrappers

  /** calloc returning non-null. */
  method Calloc() returns (ok: bool) { ok := *; }

  /** WSASocket returning a socket other than INVALID_SOCKET. */
  method WsaSocket() returns (ok: bool) { ok := *; }

  /** AcceptEx succeeding, or failing with ERROR_IO_PENDING. */
  method AcceptEx(listener: int) returns (ok: bool) { ok := *; }

  /** lwp_create_server_socket: a new listening socket, or failure. */
  method CreateServerSocket() returns (ok: bool, handle: nat) { ok := *; handle := *; }

  /** listen (socket, SOMAXCONN) != -1. */
  method Listen(socket: int) returns (ok: bool) { ok := *; }

  /** lw_file_exists. */
  method FileExists(filename: string) returns (found: bool) { found := *; }

  /** CertOpenStore on a system store, or on a certificate file. */
  method CertOpenStore() returns (ok: bool) { ok := *; }

  /** CertFindCertificateInStore by subject string. */
  method CertFindCertificate(subject: Option<string>, pkcs7: bool) returns (found: bool) { found := *; }

  /** AcquireCredentialsHandleA returning SEC_E_OK. */
  method AcquireCredentials() returns (ok: bool) { ok := *; }
}
