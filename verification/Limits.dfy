/** What a session holds, and what the kernel may do to it, in plain figures. */
module Limits {
  import opened Options
  import opened PortSpec
  import opened Packet
  import opened SessionModel
  import opened Relay

  // ---- Buffers ----

  /** An append keeps everything that fits behind what is pending; a chunk that is too long
      for an empty buffer fills it; and any other that does not fit is copied past the end. */
  lemma AppendExactly(s: Sock, chunk: string)
    requires |s.pending| <= s.size
    ensures Overrun(s, chunk) <==> s.pending != "" && |s.pending| + |chunk| > s.size
    ensures !Overrun(s, chunk) ==>
              Appended(s, chunk).pending == (s.pending + chunk)[..Min(|s.pending| + |chunk|, s.size)]
  {
    if chunk == "" { assert s.pending + chunk == s.pending; }
  }

  lemma TwoAppends(s: Sock, a: string, b: string)
    requires s.pending == "" && a != "" && b != "" && s.size > 0
    ensures !Overrun(s, a) && (Overrun(Appended(s, a), b) <==> |a| + |b| > s.size)
  {
  }

  /** The client's command buffer holds 4096 bytes: two reads from the server with no
      writable event between them overrun it exactly when they bring more. */
  lemma CommandsForClient(clientFd: int, serverFd: int, a: string, b: string)
    requires a != "" && b != ""
    ensures ServerCommand(ServerCommand(NewSession(clientFd, serverFd), a), b).overrun <==> |a| + |b| > 4096
  {
    hide Appended, Overrun;
    TwoAppends(NewSession(clientFd, serverFd).clientCommand, a, b);
  }

  /** So does the server's, for chunks that are no PORT command. */
  lemma CommandsForServer(clientFd: int, serverFd: int, a: string, b: string, net: Net)
    requires a != "" && b != "" && GoodNet(net) && !Recognised(a, |a|) && !Recognised(b, |b|)
    ensures var s := ClientCommand(NewSession(clientFd, serverFd), a, net);
            s.Some? && var t := ClientCommand(s.value, b, net); t.Some? && (t.value.overrun <==> |a| + |b| > 4096)
  {
    hide Appended, Overrun, Recognised;
    TwoAppends(NewSession(clientFd, serverFd).serverCommand, a, b);
  }

  /** The client's data buffer holds 32768 bytes. */
  lemma DataForClient(clientFd: int, serverFd: int, fd: int, e: Endpoint, a: string, b: string)
    requires a != "" && b != ""
    ensures var s := Dialled(NewSession(clientFd, serverFd), fd, e);
            ConnectionData(ConnectionData(s, a), b).overrun <==> |a| + |b| > 32768
  {
    hide Appended, Overrun;
    TwoAppends(NewSock(fd, DATA_BUFFER_SIZE), a, b);
  }

  /** And so does the buffer of a socket that listens for the server. */
  lemma DataForListener(clientFd: int, serverFd: int, command: string, a: string, b: string, net: Net)
    requires a != "" && b != "" && GoodNet(net) && net.listen.Some? && Recognised(command, |command|)
    requires !Recognised(a, |a|) && !Recognised(b, |b|)
    ensures var s := Listen(NewSession(clientFd, serverFd), command, net);
            SendData(SendData(s, a, net), b, net).overrun <==> |a| + |b| > 32768
  {
    hide Appended, Overrun, Recognised;
    TwoAppends(NewSock(net.listen.value.fd, DATA_BUFFER_SIZE), a, b);
  }

  /** The receive buffer holds 4096 bytes, of which one must be left for the end of a PORT
      command's argument, unless a NUL ends it earlier. */
  lemma ReceiveBufferSize(chunk: string)
    requires Recognised(chunk, |chunk|)
    ensures |chunk| >= 5 && (Overreads(chunk) <==> |chunk| == 4096 && NUL !in chunk[5..])
    ensures Received(chunk) <==> 1 <= |chunk| <= 4096
  {
  }

  // ---- The kernel ----

  predicate Unused(p: Proxy, fd: int) {
    0 <= fd && fd !in p.open
  }

  predicate NameInRange(e: Endpoint) {
    e.address <= 4294967295 && e.port <= 65535
  }

  // Two new descriptors for a client and its server; a read of 1 to 4096 bytes, its end or
  // its failure, and sockets with new descriptors and any name, or none; any flush.
  predicate MayHappen(p: Proxy, e: Event) {
    match e
    case NewClient(clientFd, serverFd) => Unused(p, clientFd) && Unused(p, serverFd) && clientFd != serverFd
    case WriteEvent(_, _) => true
    case ReadEvent(_, input, answers) =>
      var net := answers.net;
      && (input.Bytes? ==> 1 <= |input.chunk| <= 4096)
      && (answers.accepted.Some? ==> Unused(p, answers.accepted.value))
      && (net.dial.Some? ==> Unused(p, net.dial.value))
      && (net.listen.Some? ==> Unused(p, net.listen.value.fd))
      && (net.dial.Some? && net.listen.Some? ==> net.dial.value != net.listen.value.fd)
      && (net.listen.Some? && net.listen.value.name.Some? ==> NameInRange(net.listen.value.name.value))
  }

  /** That is all that runs are restricted to. */
  lemma KernelIsFree(p: Proxy, e: Event)
    ensures MayHappen(p, e) <==> Allowed(p, e)
  {
  }

  /** What a PORT command comes to when the kernel fails: with no listening socket the
      client's own line goes to the server, with no name for it nothing goes, and when the
      client cannot be reached the session goes. */
  lemma PortFailures(s: Session, chunk: string, net: Net)
    requires GoodNet(net) && Recognised(chunk, |chunk|) && !Overreads(chunk)
    ensures |chunk| >= 5
    ensures Parsed(Argument(chunk)).Some? && net.dial.None? ==> ClientCommand(s, chunk, net) == None
    ensures Parsed(Argument(chunk)).None? || net.dial.Some? ==>
              ClientCommand(s, chunk, net).Some? &&
              var t := ClientCommand(s, chunk, net).value;
              (net.listen.None? ==> t.toServer == s.toServer + chunk && t.serverData == s.serverData &&
                                    t.serverCommand == Appended(s.serverCommand, chunk)) &&
              (net.listen.Some? && net.listen.value.name.None? ==>
                 t.toServer == s.toServer && t.serverCommand == s.serverCommand && t.serverData.Some? &&
                 t.serverData.value.fd == net.listen.value.fd)
  {
    hide Parsed, Overreads, Argument;
    assert s.toServer + "" == s.toServer;
  }
}
