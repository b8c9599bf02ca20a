/** The session structure on the heap, with its client and server sockets, and the
    handlers of session.c, client.c and server.c that change it. */
module Sessions {
  import opened Options
  import Text
  import opened PortSpec
  import opened PortCommand
  import opened PortTheorems
  import opened Packet
  import opened Sockets
  import M = SessionModel

  // The client and server structures are flattened into their session.
  class Session {
    const clientCommand: Socket
    var clientData: Socket?
    const serverCommand: Socket
    var serverData: Socket?
    var serverConnection: Socket?
    ghost var overrun: bool
    ghost var fromServer: string
    ghost var fromConnection: string
    ghost var toServer: string
    ghost var dialled: seq<Endpoint>
    ghost var Repr: set<object>

    ghost predicate Holds(s: Socket?)
      reads this, s
    {
      s != null ==> s in Repr && s.buffer in Repr && s.Valid()
    }

    ghost predicate Apart(s: Socket?, t: Socket?)
      reads this
    {
      s != null && t != null ==> s != t && s.buffer != t.buffer
    }

    ghost predicate Valid()
      reads this, Repr
    {
      && this in Repr
      && clientCommand in Repr && serverCommand in Repr && Holds(clientCommand) && Holds(serverCommand)
      && clientData in Repr + {null} && serverData in Repr + {null} && serverConnection in Repr + {null}
      && Holds(clientData) && Holds(serverData) && Holds(serverConnection)
      && Apart(clientCommand, serverCommand) && Apart(clientCommand, clientData) && Apart(clientCommand, serverData)
      && Apart(clientCommand, serverConnection) && Apart(serverCommand, clientData) && Apart(serverCommand, serverData)
      && Apart(serverCommand, serverConnection) && Apart(clientData, serverData) && Apart(clientData, serverConnection)
      && Apart(serverData, serverConnection)
    }

    ghost function Optional(s: Socket?): Option<M.Sock>
      requires Holds(s)
      reads this, Repr, s
    {
      if s == null then None else Some(s.View())
    }

    ghost function View(): M.Session
      requires Valid()
      reads this, Repr
    {
      M.Session(clientCommand.View(), Optional(clientData), serverCommand.View(), Optional(serverData),
                Optional(serverConnection), overrun, fromServer, fromConnection, toServer, dialled)
    }

    // add_session_to_list, client_create and server_create, once both sockets are there
    constructor (clientFd: int, serverFd: int)
      ensures Valid() && fresh(Repr) && View() == M.NewSession(clientFd, serverFd)
    {
      var c := new Socket(clientFd, M.COMMAND_BUFFER_SIZE);
      var s := new Socket(serverFd, M.COMMAND_BUFFER_SIZE);
      clientCommand, serverCommand := c, s;
      clientData, serverData, serverConnection := null, null, null;
      overrun, fromServer, fromConnection, toServer, dialled := false, "", "", "", [];
      Repr := {this, c, s, c.buffer, s.buffer};
    }

    method ServerCommandReceived(buffer: array<char>, receivedBytes: nat)
      requires Valid() && buffer !in Repr && receivedBytes <= buffer.Length
      modifies Repr
      ensures Valid() && Repr == old(Repr)
      ensures View() == M.ServerCommand(old(View()), buffer[..receivedBytes])
    {
      var kind := clientCommand.BufferWrite(buffer, receivedBytes);
      overrun := overrun || kind == M.Overruns;
      fromServer := fromServer + buffer[..receivedBytes];
    }

    method ServerDataConnectionReceived(buffer: array<char>, receivedBytes: nat)
      requires Valid() && buffer !in Repr && receivedBytes <= buffer.Length
      modifies Repr
      ensures Valid() && Repr == old(Repr)
      ensures View() == M.ConnectionData(old(View()), buffer[..receivedBytes])
    {
      if clientData != null {
        var kind := clientData.BufferWrite(buffer, receivedBytes);
        overrun := overrun || kind == M.Overruns;
        fromConnection := fromConnection + buffer[..receivedBytes];
      }
    }

    // server_listen
    method ServerListen(fd: int)
      requires Valid()
      modifies `serverData, `Repr
      ensures Valid() && fresh(Repr - old(Repr)) && old(Repr) <= Repr && serverData != null && fresh(serverData)
      ensures fresh(serverData.buffer)
      ensures View() == old(View()).(serverData := Some(M.NewSock(fd, M.DATA_BUFFER_SIZE)))
    {
      var listening := new Socket(fd, M.DATA_BUFFER_SIZE);
      serverData := listening;
      Repr := Repr + {listening, listening.buffer};
    }

    // The middle of send_packet_to_server: a PORT command is replaced by the proxy's own.
    method Rewrite(buffer: array<char>, receivedBytes: nat, net: M.Net) returns (newBufferSize: int)
      requires Valid() && buffer !in Repr && ReceiveBuffer(buffer, receivedBytes) && M.GoodNet(net)
      modifies `serverData, `Repr, buffer
      ensures Valid() && fresh(Repr - old(Repr)) && old(Repr) <= Repr
      ensures if Recognised(old(buffer[..receivedBytes]), receivedBytes) && net.listen.Some?
              then serverData != null && fresh(serverData) && fresh(serverData.buffer)
              else serverData == old(serverData)
      ensures View() == M.Listen(old(View()), old(buffer[..receivedBytes]), net)
      ensures newBufferSize <= buffer.Length
      ensures Prefix(buffer, newBufferSize) == M.Forwarded(old(buffer[..receivedBytes]), net)
    {
      hide Valid, View, Recognised, PortLine;
      newBufferSize := receivedBytes;
      var isPort := IsPortCommand(buffer, receivedBytes);
      RecognisedPrefix(buffer[..], receivedBytes);
      assert buffer[..][..receivedBytes] == buffer[..receivedBytes];
      if isPort && net.listen.Some? {
        ServerListen(net.listen.value.fd);
        if net.listen.value.name.Some? { RoundTrip(net.listen.value.name.value); }
        newBufferSize := GeneratePortCommand(net.listen.value.fd, net.listen.value.name, buffer);
      }
    }

    method AppendServerCommand(buffer: array<char>, size: int)
      requires Valid() && buffer !in Repr && size <= buffer.Length
      modifies serverCommand, serverCommand.buffer, `overrun, `toServer
      ensures Valid() && Repr == old(Repr)
      ensures var s, text := old(View()), Prefix(buffer, size);
              View() == s.(serverCommand := M.Appended(s.serverCommand, text), toServer := s.toServer + text,
                           overrun := s.overrun || M.Overrun(s.serverCommand, text))
    {
      if size > 0 {
        var kind := serverCommand.BufferWrite(buffer, size);
        overrun := overrun || kind == M.Overruns;
        toServer := toServer + buffer[..size];
      }
    }

    // send_packet_to_server with PORT_TYPE_COMMAND
    method SendCommandToServer(buffer: array<char>, receivedBytes: nat, net: M.Net)
      requires Valid() && buffer !in Repr && ReceiveBuffer(buffer, receivedBytes) && M.GoodNet(net)
      modifies Repr, buffer
      ensures Valid() && fresh(Repr - old(Repr))
      ensures View() == M.SendCommand(old(View()), old(buffer[..receivedBytes]), net)
    {
      OwnsCommandSockets();
      hide Valid, View, Recognised, M.Forwarded, M.Appended, M.Overrun;
      var newBufferSize := Rewrite(buffer, receivedBytes, net);
      AppendServerCommand(buffer, newBufferSize);
    }

    lemma OwnsCommandSockets()
      requires Valid()
      ensures {this, serverCommand, serverCommand.buffer} <= Repr
      ensures serverData != null ==> {serverData, serverData.buffer} <= Repr && serverData.Valid() && Spare(serverData)
    {
    }

    // A socket that shares nothing with the others of the session.
    ghost predicate Spare(s: Socket)
      reads this, s
    {
      && s.Valid() && Apart(clientCommand, s) && Apart(serverCommand, s)
      && Apart(clientData, s) && Apart(serverConnection, s)
    }

    // `target` may meanwhile have been replaced as the listening socket.
    method AppendServerData(target: Socket, buffer: array<char>, size: int)
      requires Valid() && buffer !in Repr && size <= buffer.Length
      requires {target, target.buffer} <= Repr && Spare(target) && (target == serverData || Apart(serverData, target))
      modifies target, target.buffer, `overrun
      ensures Valid() && Repr == old(Repr)
      ensures var s, text := old(View()), Prefix(buffer, size);
              View() == s.(overrun := s.overrun || M.Overrun(old(target.View()), text),
                           serverData := if target == serverData then Some(M.Appended(old(target.View()), text))
                                         else s.serverData)
    {
      if size > 0 {
        var kind := target.BufferWrite(buffer, size);
        overrun := overrun || kind == M.Overruns;
      }
    }

    lemma ListeningView()
      requires Valid()
      ensures View().serverData == if serverData == null then None else Some(serverData.View())
    {
    }

    // send_packet_to_server with PORT_TYPE_DATA
    method SendDataToServer(buffer: array<char>, receivedBytes: nat, net: M.Net)
      requires Valid() && buffer !in Repr && ReceiveBuffer(buffer, receivedBytes) && M.GoodNet(net)
      modifies Repr, buffer
      ensures Valid() && fresh(Repr - old(Repr))
      ensures View() == M.SendData(old(View()), old(buffer[..receivedBytes]), net)
    {
      OwnsCommandSockets();
      ListeningView();
      hide Valid, View, Recognised, M.Forwarded, M.Appended, M.Overrun;
      var target := serverData;
      var newBufferSize := Rewrite(buffer, receivedBytes, net);
      if target != null {
        AppendServerData(target, buffer, newBufferSize);
      }
    }

    // client_connect
    method ClientConnect(fd: int, ghost address: Endpoint)
      requires Valid()
      modifies `clientData, `Repr, `fromConnection, `dialled
      ensures Valid() && fresh(Repr - old(Repr)) && old(Repr) <= Repr
      ensures View() == M.Dialled(old(View()), fd, address)
    {
      hide Valid, View, M.Dialled;
      var data := new Socket(fd, M.DATA_BUFFER_SIZE);
      UseDataSocket(data, address);
    }

    method UseDataSocket(data: Socket, ghost address: Endpoint)
      requires Valid() && data.Valid() && data.View() == M.NewSock(data.fd, M.DATA_BUFFER_SIZE)
      requires {data, data.buffer} !! Repr
      modifies `clientData, `Repr, `fromConnection, `dialled
      ensures Valid() && Repr == old(Repr) + {data, data.buffer}
      ensures View() == M.Dialled(old(View()), data.fd, address)
    {
      clientData := data;
      Repr := Repr + {data, data.buffer};
      fromConnection := "";
      dialled := dialled + [address];
    }

    // The first half of client_command_received: a PORT command is dialled. Where the C
    // code would copy from past the buffer, nothing is done.
    method InterceptPort(buffer: array<char>, receivedBytes: nat, net: M.Net) returns (kept: bool)
      requires Valid() && buffer !in Repr && ReceiveBuffer(buffer, receivedBytes)
      modifies this
      ensures Valid() && fresh(Repr - old(Repr)) && old(Repr) <= Repr
      ensures var r := M.Intercept(old(View()), buffer[..receivedBytes], net);
              kept == r.Some? && (kept ==> View() == r.value)
    {
      hide Valid, View, Recognised, Parsed, M.Overreads, M.Argument, M.Dialled;
      var isPort := IsPortCommand(buffer, receivedBytes);
      RecognisedPrefix(buffer[..], receivedBytes);
      assert buffer[..][..receivedBytes] == buffer[..receivedBytes];
      kept := true;
      if isPort {
        ArgumentInBuffer(buffer, receivedBytes);
        if 5 + receivedBytes <= buffer.Length || NUL in buffer[5..] {
          var address := GetAddressFromPortCommand(buffer, 5, receivedBytes); // behind `PORT `
          if address.Some? {
            kept := net.dial.Some?;
            if kept { ClientConnect(net.dial.value, address.value); }
          }
        } else {
          Overrun();
        }
      }
    }

    ghost method Overrun()
      requires Valid()
      modifies `overrun
      ensures Valid() && View() == old(View()).(overrun := true)
    {
      overrun := true;
    }

    // client_command_received; the answer says whether the session stays in the list.
    method ClientCommandReceived(buffer: array<char>, receivedBytes: nat, net: M.Net) returns (kept: bool)
      requires Valid() && buffer !in Repr && ReceiveBuffer(buffer, receivedBytes) && M.GoodNet(net)
      modifies Repr, buffer
      ensures Valid() && fresh(Repr - old(Repr))
      ensures var r := M.ClientCommand(old(View()), old(buffer[..receivedBytes]), net);
              kept == r.Some? && (kept ==> View() == r.value)
    {
      OwnsCommandSockets();
      hide Valid, View, M.Intercept, M.SendCommand;
      kept := InterceptPort(buffer, receivedBytes, net);
      if kept {
        SendCommandToServer(buffer, receivedBytes, net);
      }
    }

    // server_accept
    method ServerAccept(fd: int)
      requires Valid()
      modifies `serverConnection, `Repr
      ensures Valid() && fresh(Repr - old(Repr))
      ensures View() == M.Accept(old(View()), fd)
    {
      var connection := new Socket(fd, M.DATA_BUFFER_SIZE);
      serverConnection := connection;
      Repr := Repr + {connection, connection.buffer};
    }

    // server_data_closed, whose second half only repeats the first
    method ServerDataClosed()
      requires Valid()
      modifies `serverConnection
      ensures Valid()
      ensures View() == M.DataClosed(old(View()))
    {
      serverConnection := null;
    }

    // The look-up by role of session_write_packet
    method Pick(eventSocket: int) returns (target: Socket?)
      requires Valid()
      ensures target in {clientCommand, clientData, serverCommand, serverData, serverConnection, null}
      ensures target != null ==> target.fd == eventSocket && target.Valid()
      ensures M.Picked(View(), eventSocket) == if target == null then None else Some(target.View())
      ensures forall script :: M.WritePacket(View(), eventSocket, script) == AsFlushed(target, script)
    {
      hide M.Flushed;
      target := null;
      if clientCommand.fd == eventSocket {
        target := clientCommand;
      } else if clientData != null && clientData.fd == eventSocket {
        target := clientData;
      } else if serverCommand.fd == eventSocket {
        target := serverCommand;
      } else if serverData != null && serverData.fd == eventSocket {
        target := serverData;
      } else if serverConnection != null && serverConnection.fd == eventSocket {
        target := serverConnection;
      }
    }

    // The session with that socket of it flushed.
    ghost function AsFlushed(target: Socket?, script: Script): M.Session
      requires Valid()
      reads this, Repr
    {
      var s := View();
      if target == null then s
      else if target == clientCommand then s.(clientCommand := M.Flushed(s.clientCommand, script))
      else if target == clientData then s.(clientData := Some(M.Flushed(s.clientData.value, script)))
      else if target == serverCommand then s.(serverCommand := M.Flushed(s.serverCommand, script))
      else if target == serverData then s.(serverData := Some(M.Flushed(s.serverData.value, script)))
      else if target == serverConnection then s.(serverConnection := Some(M.Flushed(s.serverConnection.value, script)))
      else s
    }

    // session_write_packet
    method WritePacket(eventSocket: int, kernel: Kernel)
      requires Valid() && kernel !in Repr
      modifies Repr, kernel
      ensures Valid() && Repr == old(Repr)
      ensures View() == M.WritePacket(old(View()), eventSocket, old(kernel.script))
      ensures M.Transmits(M.Picked(old(View()), eventSocket), old(kernel.script), old(kernel.written),
                          kernel.script, kernel.written)
    {
      hide M.Flushed, M.Transmits, M.Picked, M.WritePacket;
      var target := Pick(eventSocket);
      if target != null {
        target.Flush(kernel);
      } else {
        NothingTransmitted(kernel.script, kernel.written);
      }
    }

    lemma NothingTransmitted(script: Script, written: string)
      ensures M.Transmits(None, script, written, script, written)
    {
    }

    // is_socket_in_session
    predicate IsSocketInSession(fd: int)
      requires Valid()
      reads this, Repr
      ensures IsSocketInSession(fd) <==> fd >= 0 && fd in M.Owned(View())
      ensures IsSocketInSession(fd) == M.InSession(View(), fd)
    {
      fd >= 0 &&
      (clientCommand.fd == fd || (clientData != null && clientData.fd == fd) ||
       serverCommand.fd == fd || (serverData != null && serverData.fd == fd) ||
       (serverConnection != null && serverConnection.fd == fd))
    }

    // client_free and server_free: the descriptors they close
    method FreePeers() returns (closed: set<int>)
      requires Valid()
      ensures closed == M.ClosedOnRemoval(View())
    {
      closed := {clientCommand.fd};
      if clientData != null { closed := closed + {clientData.fd}; }
      closed := closed + {serverCommand.fd};
      if serverData != null { closed := closed + {serverData.fd}; }
    }

    // session_read_packet after the read, for a descriptor other than the listening one
    method ReadPacket(eventSocket: int, buffer: array<char>, receivedBytes: int, net: M.Net) returns (kept: bool)
      requires Valid() && buffer !in Repr && ReceiveBuffer(buffer, receivedBytes) && M.GoodNet(net)
      requires !M.Is(View().serverData, eventSocket)
      modifies Repr, buffer
      ensures Valid() && fresh(Repr - old(Repr))
      ensures var input, answers := InputOf(old(buffer[..]), receivedBytes), M.Answers(None, net);
              var r := M.Readable(old(View()), eventSocket, input, answers);
              kept == r.Some? && (kept ==> View() == r.value)
    {
      Roles(eventSocket);
      hide Valid, View, M.ServerCommand, M.ConnectionData, M.ClientCommand, M.SendData, M.DataClosed;
      kept := true;
      if receivedBytes <= 0 {
        var isConnection :=
          serverCommand.fd != eventSocket && serverConnection != null && serverConnection.fd == eventSocket;
        if receivedBytes == 0 && isConnection {
          ServerDataClosed();
        } else {
          kept := false;
        }
      } else {
        assert buffer[..][..receivedBytes] == buffer[..receivedBytes];
        if serverCommand.fd == eventSocket {
          ServerCommandReceived(buffer, receivedBytes);
        } else if serverConnection != null && serverConnection.fd == eventSocket {
          ServerDataConnectionReceived(buffer, receivedBytes);
        } else if clientCommand.fd == eventSocket {
          kept := ClientCommandReceived(buffer, receivedBytes, net);
        } else if clientData != null && clientData.fd == eventSocket {
          SendDataToServer(buffer, receivedBytes, net);
        }
      }
    }

    // The descriptors of the view are those of the sockets.
    lemma Roles(fd: int)
      requires Valid()
      ensures {this} <= Repr && clientCommand.fd == View().clientCommand.fd
      ensures serverCommand.fd == View().serverCommand.fd
      ensures (clientData != null && clientData.fd == fd) == M.Is(View().clientData, fd)
      ensures (serverData != null && serverData.fd == fd) == M.Is(View().serverData, fd)
      ensures (serverConnection != null && serverConnection.fd == fd) == M.Is(View().serverConnection, fd)
    {
    }

    // What session_polling does for a readable descriptor of this session.
    method Readable(eventSocket: int, buffer: array<char>, receivedBytes: int, answers: M.Answers) returns (kept: bool)
      requires Valid() && buffer !in Repr && ReceiveBuffer(buffer, receivedBytes) && M.GoodNet(answers.net)
      modifies Repr, buffer
      ensures Valid() && fresh(Repr - old(Repr))
      ensures var r := M.Readable(old(View()), eventSocket, InputOf(old(buffer[..]), receivedBytes), answers);
              kept == r.Some? && (kept ==> View() == r.value)
    {
      Roles(eventSocket);
      hide Valid, View, M.ServerCommand, M.ConnectionData, M.ClientCommand, M.SendData, M.DataClosed, M.Accept;
      if serverData != null && eventSocket == serverData.fd {
        kept := true;
        if answers.accepted.Some? { ServerAccept(answers.accepted.value); }
      } else {
        kept := ReadPacket(eventSocket, buffer, receivedBytes, answers.net);
      }
    }
  }

  // The receive buffer of session_read_packet, cleared before the read of that result.
  ghost predicate ReceiveBuffer(buffer: array<char>, receivedBytes: int)
    reads buffer
  {
    receivedBytes <= buffer.Length == M.COMMAND_BUFFER_SIZE &&
    (receivedBytes > 0 ==> forall i :: receivedBytes <= i < buffer.Length ==> buffer[i] == NUL)
  }

  // The first bytes of a buffer; none for a negative size.
  ghost function Prefix(buffer: array<char>, size: int): string
    requires size <= buffer.Length
    reads buffer
  {
    if size <= 0 then "" else buffer[..size]
  }

  // What a read of `receivedBytes` bytes means.
  function InputOf(buffer: string, receivedBytes: int): M.Input
    requires receivedBytes <= |buffer|
  {
    if receivedBytes < 0 then M.Broken else if receivedBytes == 0 then M.Closed else M.Bytes(buffer[..receivedBytes])
  }

  /** The copy of a PORT command's argument, whose length is passed five bytes too long,
      stays in the receive buffer exactly unless the command fills it without a NUL. It
      is then the argument, ended by the cleared rest of the buffer. */
  lemma ArgumentInBuffer(buffer: array<char>, n: nat)
    requires ReceiveBuffer(buffer, n) && Recognised(buffer[..n], n)
    ensures 5 + n <= buffer.Length || NUL in buffer[5..] <==> !M.Overreads(buffer[..n])
    ensures !M.Overreads(buffer[..n]) ==> CText(buffer, 5, n) == M.Argument(buffer[..n])
  {
    hide Text.Until, Text.Split, Valued;
    var end := if 5 + n <= buffer.Length then 5 + n else buffer.Length;
    assert buffer[5..buffer.Length] == buffer[5..];
    assert buffer[..n][5..] == buffer[5..n];
    assert buffer[5..end] == buffer[5..n] + buffer[n..end];
    Text.UntilPrefix(buffer[5..n], buffer[n..end], {NUL});
    if n < buffer.Length { assert buffer[n] in buffer[5..]; }
  }

  lemma RecognisedPrefix(command: string, size: nat)
    requires size <= |command|
    ensures Recognised(command, size) == Recognised(command[..size], size)
  {
    if size >= 5 {
      assert command[..size][..4] == command[..4];
      assert command[..size][5..size] == command[5..size];
    }
  }
}
