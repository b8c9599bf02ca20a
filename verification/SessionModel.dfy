/** One relay session of session.c, client.c and server.c on values: what each event
    does to its sockets, and what it has seen so far. */
module SessionModel {
  import opened Options
  import opened Text
  import opened PortSpec
  import opened Packet

  const COMMAND_BUFFER_SIZE: nat := 4096
  const DATA_BUFFER_SIZE: nat := 32768

  // A socket and its history: `offered` is everything handed to it since it was made,
  // `written` what the kernel took, `lost` how many bytes a flush or an append dropped.
  datatype Sock = Sock(fd: int, size: nat, pending: string, offered: string, written: string, lost: nat)

  function NewSock(fd: int, size: nat): Sock {
    Sock(fd, size, "", "", "", 0)
  }

  // ---- session_buffer_write ----

  // What the C function does with the bytes: `Overruns` copies past the buffer.
  datatype Append = Nothing | Stored | Truncated | Overruns

  function AppendKind(used: nat, size: nat, length: nat): Append {
    if length == 0 then Nothing
    else if length + used <= size then Stored
    else if used == 0 then Truncated
    else Overruns
  }

  function Appended(s: Sock, chunk: string): Sock {
    var s' := s.(offered := s.offered + chunk);
    match AppendKind(|s.pending|, s.size, |chunk|)
    case Nothing => s
    case Stored => s'.(pending := s.pending + chunk)
    case Truncated => s'.(pending := chunk[..s.size], lost := s.lost + |chunk| - s.size)
    case Overruns => s
  }

  // ---- session_write_packet on the socket it picked ----

  function Flushed(s: Sock, script: Script): Sock {
    if s.pending == "" then s
    else
      TransferWithin(script, |s.pending|, 0);
      var moved := FullTransfer(script, |s.pending|, 0).moved;
      s.(pending := "", written := s.written + s.pending[..moved], lost := s.lost + |s.pending| - moved)
  }

  // ---- Sessions ----

  datatype Session = Session(
    clientCommand: Sock,
    clientData: Option<Sock>,
    serverCommand: Sock,
    serverData: Option<Sock>,        // the listening socket
    serverConnection: Option<Sock>,  // the data connection accepted on it
    overrun: bool,                   // a copy ran past the end of a buffer: nothing is claimed any more
    // History:
    fromServer: string,              // read from the server's command socket
    fromConnection: string,          // read from data connections since `clientData` was opened
    toServer: string,                // read from the client's command socket, PORT lines rewritten
    dialled: seq<Endpoint>
  )

  function NewSession(clientFd: int, serverFd: int): Session {
    Session(NewSock(clientFd, COMMAND_BUFFER_SIZE), None, NewSock(serverFd, COMMAND_BUFFER_SIZE), None, None, false,
            "", "", "", [])
  }

  predicate Overrun(s: Sock, chunk: string) {
    AppendKind(|s.pending|, s.size, |chunk|) == Overruns
  }

  // The answers of the kernel while a command is handled: the descriptor connected to
  // the client, and the listening descriptor with the name getsockname gives it.
  datatype Listening = Listening(fd: int, name: Option<Endpoint>)
  datatype Net = Net(dial: Option<int>, listen: Option<Listening>)

  predicate GoodNet(net: Net) {
    net.listen.Some? ==>
      net.listen.value.fd >= 0 &&
      (net.listen.value.name.Some? ==>
         net.listen.value.name.value.address < 0x1_0000_0000 && net.listen.value.name.value.port < 0x1_0000)
  }

  // A read asks for the size of the receive buffer.
  predicate Received(chunk: string) {
    0 < |chunk| <= COMMAND_BUFFER_SIZE
  }

  // A PORT command that fills the receive buffer: its argument has no end in there.
  predicate Overreads(chunk: string) {
    |chunk| == COMMAND_BUFFER_SIZE && Recognised(chunk, |chunk|) && NUL !in chunk[5..]
  }

  // server_command_received
  function ServerCommand(s: Session, chunk: string): Session {
    s.(clientCommand := Appended(s.clientCommand, chunk), overrun := s.overrun || Overrun(s.clientCommand, chunk),
       fromServer := s.fromServer + chunk)
  }

  // server_data_connection_received
  function ConnectionData(s: Session, chunk: string): Session {
    match s.clientData
    case None => s
    case Some(data) =>
      s.(clientData := Some(Appended(data, chunk)), overrun := s.overrun || Overrun(data, chunk),
         fromConnection := s.fromConnection + chunk)
  }

  // The text that send_packet_to_server appends for a chunk, and the listening socket.
  function Forwarded(chunk: string, net: Net): string
    requires GoodNet(net)
  {
    if !Recognised(chunk, |chunk|) || net.listen.None? then chunk
    else match net.listen.value.name
      case None => ""
      case Some(name) => PortLine(name)
  }

  function Listen(s: Session, chunk: string, net: Net): Session {
    if Recognised(chunk, |chunk|) && net.listen.Some?
    then s.(serverData := Some(NewSock(net.listen.value.fd, DATA_BUFFER_SIZE))) else s
  }

  // send_packet_to_server with PORT_TYPE_COMMAND
  function SendCommand(s: Session, chunk: string, net: Net): Session
    requires GoodNet(net)
  {
    var text := Forwarded(chunk, net);
    Listen(s, chunk, net).(serverCommand := Appended(s.serverCommand, text), toServer := s.toServer + text,
                           overrun := s.overrun || Overrun(s.serverCommand, text))
  }

  // send_packet_to_server with PORT_TYPE_DATA: the target is the listening socket as it
  // was before a rewrite replaced it.
  function SendData(s: Session, chunk: string, net: Net): Session
    requires GoodNet(net)
  {
    match s.serverData
    case None => Listen(s, chunk, net)
    case Some(data) =>
      var text := Forwarded(chunk, net);
      Listen(s.(serverData := Some(Appended(data, text)), overrun := s.overrun || Overrun(data, text)), chunk, net)
  }

  // The argument text of a command: the receive buffer was cleared before the read.
  function Argument(chunk: string): string
    requires |chunk| >= 5
  {
    Until(chunk[5..], {NUL})
  }

  // client_connect
  function Dialled(s: Session, fd: int, e: Endpoint): Session {
    s.(clientData := Some(NewSock(fd, DATA_BUFFER_SIZE)), fromConnection := "", dialled := s.dialled + [e])
  }

  // What client_command_received does before it passes the command on; None when the
  // dialling fails and the session is removed.
  function Intercept(s: Session, chunk: string, net: Net): Option<Session> {
    if !Recognised(chunk, |chunk|) then Some(s)
    else if Overreads(chunk) then Some(s.(overrun := true))
    else match Parsed(Argument(chunk))
      case None => Some(s)
      case Some(e) =>
        match net.dial
        case None => None
        case Some(fd) => Some(Dialled(s, fd, e))
  }

  // client_command_received
  function ClientCommand(s: Session, chunk: string, net: Net): Option<Session>
    requires GoodNet(net)
  {
    match Intercept(s, chunk, net)
    case None => None
    case Some(s') => Some(SendCommand(s', chunk, net))
  }

  // server_accept
  function Accept(s: Session, fd: int): Session {
    s.(serverConnection := Some(NewSock(fd, DATA_BUFFER_SIZE)))
  }

  // server_data_closed: only the connection goes, the listening socket stays.
  function DataClosed(s: Session): Session {
    s.(serverConnection := None)
  }

  // ---- Which socket a descriptor is ----

  datatype Role =
    | ClientCommandRole | ClientDataRole
    | ServerCommandRole | ServerDataRole | ServerConnectionRole
    | NoRole

  predicate Is(s: Option<Sock>, fd: int) {
    s.Some? && s.value.fd == fd
  }

  // session_get_client_socket_type
  function ClientRole(s: Session, fd: int): Role {
    if s.clientCommand.fd == fd then ClientCommandRole
    else if Is(s.clientData, fd) then ClientDataRole
    else NoRole
  }

  // session_get_server_socket_type
  function ServerRole(s: Session, fd: int): Role {
    if s.serverCommand.fd == fd then ServerCommandRole
    else if Is(s.serverData, fd) then ServerDataRole
    else if Is(s.serverConnection, fd) then ServerConnectionRole
    else NoRole
  }

  // Descriptors the session owns.
  function Owned(s: Session): set<int> {
    {s.clientCommand.fd, s.serverCommand.fd}
    + (if s.clientData.Some? then {s.clientData.value.fd} else {})
    + (if s.serverData.Some? then {s.serverData.value.fd} else {})
    + (if s.serverConnection.Some? then {s.serverConnection.value.fd} else {})
  }

  // client_free and server_free close these; the accepted connection is not closed.
  function ClosedOnRemoval(s: Session): set<int> {
    {s.clientCommand.fd, s.serverCommand.fd}
    + (if s.clientData.Some? then {s.clientData.value.fd} else {})
    + (if s.serverData.Some? then {s.serverData.value.fd} else {})
  }

  function ClosedByAll(sessions: seq<Session>): set<int> {
    if sessions == [] then {}
    else ClosedByAll(sessions[..|sessions| - 1]) + ClosedOnRemoval(sessions[|sessions| - 1])
  }

  /** A teardown closes what the removal of any of the sessions closes. */
  lemma {:induction false} ClosedByAny(sessions: seq<Session>, fd: int)
    ensures fd in ClosedByAll(sessions) <==> exists i :: 0 <= i < |sessions| && fd in ClosedOnRemoval(sessions[i])
  {
    hide ClosedOnRemoval;
    if sessions != [] {
      var n := |sessions| - 1;
      ClosedByAny(sessions[..n], fd);
      assert forall i :: 0 <= i < n ==> sessions[..n][i] == sessions[i];
    }
  }

  // is_socket_in_session
  predicate InSession(s: Session, fd: int) {
    fd >= 0 && (ClientRole(s, fd) != NoRole || ServerRole(s, fd) != NoRole)
  }

  // The socket that session_write_packet picks: the client's are looked up first.
  function Picked(s: Session, fd: int): Option<Sock> {
    if s.clientCommand.fd == fd then Some(s.clientCommand)
    else if Is(s.clientData, fd) then s.clientData
    else if s.serverCommand.fd == fd then Some(s.serverCommand)
    else if Is(s.serverData, fd) then s.serverData
    else if Is(s.serverConnection, fd) then s.serverConnection
    else None
  }

  // What the kernel is given when a picked socket is flushed: a prefix of what is pending,
  // as long as its answers let it be; nothing without a socket or without anything pending.
  predicate Transmits(picked: Option<Sock>, script: Script, written: string, script': Script, written': string) {
    if picked.None? || picked.value.pending == "" then script' == script && written' == written
    else
      var t := FullTransfer(script, |picked.value.pending|, 0);
      t.moved <= |picked.value.pending| && script' == t.rest && written' == written + picked.value.pending[..t.moved]
  }

  // session_write_packet: the client's socket is looked up first.
  function WritePacket(s: Session, fd: int, script: Script): Session {
    if s.clientCommand.fd == fd then s.(clientCommand := Flushed(s.clientCommand, script))
    else if Is(s.clientData, fd) then s.(clientData := Some(Flushed(s.clientData.value, script)))
    else if s.serverCommand.fd == fd then s.(serverCommand := Flushed(s.serverCommand, script))
    else if Is(s.serverData, fd) then s.(serverData := Some(Flushed(s.serverData.value, script)))
    else if Is(s.serverConnection, fd) then s.(serverConnection := Some(Flushed(s.serverConnection.value, script)))
    else s
  }

  // ---- One event ----

  // The outcome of the read on a readable descriptor.
  datatype Input = Bytes(chunk: string) | Closed | Broken

  // What the kernel answers besides: the connection accepted on the listening socket,
  // and the sockets a PORT command opens.
  datatype Answers = Answers(accepted: Option<int>, net: Net)

  // A readable descriptor in session_polling and session_read_packet; None when the
  // session is removed from the list.
  function Readable(s: Session, fd: int, input: Input, answers: Answers): Option<Session>
    requires GoodNet(answers.net)
  {
    if Is(s.serverData, fd) then
      Some(if answers.accepted.Some? then Accept(s, answers.accepted.value) else s)
    else
      match input
      case Closed => if ServerRole(s, fd) == ServerConnectionRole then Some(DataClosed(s)) else None
      case Broken => None
      case Bytes(chunk) =>
        if s.serverCommand.fd == fd then Some(ServerCommand(s, chunk))
        else if Is(s.serverConnection, fd) then Some(ConnectionData(s, chunk))
        else if s.clientCommand.fd == fd then ClientCommand(s, chunk, answers.net)
        else if Is(s.clientData, fd) then Some(SendData(s, chunk, answers.net))
        else Some(s)
  }
}
