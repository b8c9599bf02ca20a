/** Whole runs of the proxy: the registry of sessions, and what the relay delivers. */
module Relay {
  import opened Options
  import opened Sequences
  import opened Text
  import opened PortSpec
  import opened PortTheorems
  import opened Packet
  import opened SessionModel

  // `sessions` in list order; `open` are the descriptors the kernel has given out.
  datatype Proxy = Proxy(sessions: seq<Session>, listener: int, open: set<int>)

  datatype Event =
    | NewClient(clientFd: int, serverFd: int)
    | ReadEvent(fd: int, input: Input, answers: Answers)
    | WriteEvent(fd: int, script: Script)

  predicate Fresh(p: Proxy, fd: int) {
    fd >= 0 && fd !in p.open
  }

  // The kernel gives out fresh descriptors.
  predicate Allowed(p: Proxy, e: Event) {
    match e
    case NewClient(clientFd, serverFd) => Fresh(p, clientFd) && Fresh(p, serverFd) && clientFd != serverFd
    case ReadEvent(_, input, answers) =>
      && GoodNet(answers.net)
      && (answers.accepted.Some? ==> Fresh(p, answers.accepted.value))
      && (answers.net.dial.Some? ==> Fresh(p, answers.net.dial.value))
      && (answers.net.listen.Some? ==> Fresh(p, answers.net.listen.value.fd))
      && (answers.net.dial.Some? && answers.net.listen.Some? ==> answers.net.dial.value != answers.net.listen.value.fd)
      && (input.Bytes? ==> Received(input.chunk))
    case WriteEvent(_, _) => true
  }

  // get_session_from_list: the first session in list order that has the descriptor.
  function Find(sessions: seq<Session>, fd: int): (i: nat)
    ensures i <= |sessions|
    ensures i < |sessions| ==> InSession(sessions[i], fd)
    ensures forall k :: 0 <= k < i ==> !InSession(sessions[k], fd)
  {
    if sessions == [] || InSession(sessions[0], fd) then 0
    else
      assert forall k :: 0 < k < |sessions| ==> sessions[k] == sessions[1..][k - 1];
      1 + Find(sessions[1..], fd)
  }

  // Descriptors closed by an event on session `s` with that outcome.
  function Released(s: Session, outcome: Option<Session>): set<int> {
    match outcome
    case None => ClosedOnRemoval(s)
    case Some(s') =>
      if s.serverConnection.Some? && s'.serverConnection.None? then {s.serverConnection.value.fd} else {}
  }

  function Do(p: Proxy, e: Event): Proxy
    requires e.ReadEvent? ==> GoodNet(e.answers.net)
  {
    match e
    case NewClient(clientFd, serverFd) =>
      p.(sessions := [NewSession(clientFd, serverFd)] + p.sessions, open := p.open + {clientFd, serverFd})
    case ReadEvent(fd, input, answers) =>
      var i := Find(p.sessions, fd);
      if i == |p.sessions| then p
      else
        var s := p.sessions[i];
        var outcome := Readable(s, fd, input, answers);
        var open := p.open - Released(s, outcome);
        (match outcome
         case None => p.(sessions := Remove(p.sessions, i), open := open)
         case Some(s') => p.(sessions := p.sessions[i := s'], open := open + Owned(s')))
    case WriteEvent(fd, script) =>
      var i := Find(p.sessions, fd);
      if i == |p.sessions| then p else p.(sessions := p.sessions[i := WritePacket(p.sessions[i], fd, script)])
  }

  predicate Valid(p: Proxy, run: seq<Event>)
    decreases |run|
  {
    run == [] || (Allowed(p, run[0]) && Valid(Do(p, run[0]), run[1..]))
  }

  function After(p: Proxy, run: seq<Event>): Proxy
    requires Valid(p, run)
    decreases |run|
  {
    if run == [] then p else After(Do(p, run[0]), run[1..])
  }

  // The proxy listens on `listener` and has no session yet.
  function Start(listener: int): Proxy {
    Proxy([], listener, {listener})
  }

  ghost predicate Reachable(p: Proxy) {
    exists listener: nat, run :: Valid(Start(listener), run) && After(Start(listener), run) == p
  }

  // ---- The registry ----

  // The roles of one session have different descriptors.
  ghost predicate RolesDiffer(s: Session) {
    && s.clientCommand.fd != s.serverCommand.fd
    && (s.clientData.Some? ==> s.clientData.value.fd !in {s.clientCommand.fd, s.serverCommand.fd})
    && (s.serverData.Some? ==>
          s.serverData.value.fd !in {s.clientCommand.fd, s.serverCommand.fd} &&
          !Is(s.clientData, s.serverData.value.fd))
    && (s.serverConnection.Some? ==>
          (var fd := s.serverConnection.value.fd;
           fd !in {s.clientCommand.fd, s.serverCommand.fd} && !Is(s.clientData, fd) && !Is(s.serverData, fd)))
  }

  ghost predicate Registered(s: Session, open: set<int>, listener: int) {
    && RolesDiffer(s)
    && Owned(s) <= open && listener !in Owned(s)
    && forall fd :: fd in Owned(s) ==> fd >= 0
  }

  ghost predicate RegistryInv(p: Proxy) {
    && p.listener in p.open
    && (forall i :: 0 <= i < |p.sessions| ==> Registered(p.sessions[i], p.open, p.listener))
    && (forall i, k :: 0 <= i < k < |p.sessions| ==> Owned(p.sessions[i]) !! Owned(p.sessions[k]))
  }

  lemma InSessionMeansOwned(s: Session, fd: int)
    ensures InSession(s, fd) <==> fd >= 0 && fd in Owned(s)
  {
  }

  // A session that replaces another may use that one's descriptors and new ones.
  lemma Replaced(p: Proxy, i: nat, s: Session, open: set<int>)
    requires RegistryInv(p) && i < |p.sessions|
    requires p.open - Owned(p.sessions[i]) <= open
    requires Registered(s, open, p.listener)
    requires forall fd :: fd in Owned(s) ==> fd in Owned(p.sessions[i]) || fd !in p.open
    ensures RegistryInv(p.(sessions := p.sessions[i := s], open := open))
  {
    hide RolesDiffer, Owned;
    var t := p.(sessions := p.sessions[i := s], open := open);
    forall j, k | 0 <= j < k < |t.sessions| ensures Owned(t.sessions[j]) !! Owned(t.sessions[k]) {
      assert Owned(p.sessions[j]) !! Owned(p.sessions[k]);
      var other := p.sessions[if j == i then k else j];
      assert Registered(other, p.open, p.listener);
      assert forall fd :: fd in Owned(s) ==> fd in Owned(p.sessions[i]) || fd !in Owned(other);
    }
    forall k | 0 <= k < |t.sessions| && k != i ensures Registered(t.sessions[k], open, p.listener) {
      assert Owned(p.sessions[i]) !! Owned(p.sessions[k]);
    }
  }

  lemma Removed(p: Proxy, i: nat, open: set<int>)
    requires RegistryInv(p) && i < |p.sessions|
    requires p.open - Owned(p.sessions[i]) <= open
    ensures RegistryInv(p.(sessions := Remove(p.sessions, i), open := open))
  {
    hide RolesDiffer, Owned;
    var sessions := Remove(p.sessions, i);
    assert forall k :: 0 <= k < |sessions| ==> sessions[k] == if k < i then p.sessions[k] else p.sessions[k + 1];
  }

  // A session after a step, as far as its descriptors go.
  ghost predicate Successor(p: Proxy, s: Session, s': Session) {
    && RolesDiffer(s') && Released(s, Some(s')) !! Owned(s')
    && forall fd :: fd in Owned(s') ==> fd in Owned(s) || Fresh(p, fd)
  }

  // A step that neither opens nor closes a descriptor.
  ghost predicate SameDescriptors(s: Session, s': Session) {
    && s'.clientCommand.fd == s.clientCommand.fd && s'.serverCommand.fd == s.serverCommand.fd
    && SameDescriptor(s.clientData, s'.clientData) && SameDescriptor(s.serverData, s'.serverData)
    && SameDescriptor(s.serverConnection, s'.serverConnection)
  }

  predicate SameDescriptor(s: Option<Sock>, s': Option<Sock>) {
    s.Some? == s'.Some? && (s.Some? ==> s.value.fd == s'.value.fd)
  }

  lemma SameDescriptorsOwned(p: Proxy, s: Session, s': Session)
    requires RolesDiffer(s) && SameDescriptors(s, s')
    ensures Owned(s') == Owned(s) && Successor(p, s, s')
  {
  }

  lemma ServerBytesOwned(s: Session, chunk: string)
    ensures SameDescriptors(s, ServerCommand(s, chunk)) && SameDescriptors(s, ConnectionData(s, chunk))
  {
  }

  lemma ListenOwned(p: Proxy, s: Session, chunk: string, net: Net)
    requires RolesDiffer(s)
    requires net.listen.Some? ==> Fresh(p, net.listen.value.fd) && net.listen.value.fd !in Owned(s)
    ensures Successor(p, s, Listen(s, chunk, net)) && Listen(s, chunk, net).serverCommand == s.serverCommand
  {
    hide Recognised;
  }

  lemma SendCommandOwned(p: Proxy, s: Session, chunk: string, net: Net)
    requires GoodNet(net) && RolesDiffer(s)
    requires net.listen.Some? ==> Fresh(p, net.listen.value.fd) && net.listen.value.fd !in Owned(s)
    ensures Successor(p, s, SendCommand(s, chunk, net))
  {
    hide RolesDiffer, Owned, Listen, Forwarded;
    var t := Listen(s, chunk, net);
    ListenOwned(p, s, chunk, net);
    SameDescriptorsOwned(p, t, SendCommand(s, chunk, net));
  }

  lemma SendDataOwned(p: Proxy, s: Session, chunk: string, net: Net)
    requires GoodNet(net) && RolesDiffer(s)
    requires net.listen.Some? ==> Fresh(p, net.listen.value.fd) && net.listen.value.fd !in Owned(s)
    ensures Successor(p, s, SendData(s, chunk, net))
  {
    hide RolesDiffer, Owned, Listen, Forwarded;
    ListenOwned(p, s, chunk, net);
    if s.serverData.Some? {
      var data := s.serverData.value;
      var text := Forwarded(chunk, net);
      var t := s.(serverData := Some(Appended(data, text)), overrun := s.overrun || Overrun(data, text));
      SameDescriptorsOwned(p, s, t);
      ListenOwned(p, t, chunk, net);
    }
  }

  lemma InterceptOwned(p: Proxy, s: Session, chunk: string, net: Net)
    requires RolesDiffer(s) && Owned(s) <= p.open && (net.dial.Some? ==> Fresh(p, net.dial.value))
    ensures var r := Intercept(s, chunk, net);
            r.Some? ==>
              Successor(p, s, r.value) && r.value.serverConnection == s.serverConnection &&
              Owned(r.value) <= Owned(s) + if net.dial.Some? then {net.dial.value} else {}
  {
    hide Recognised, Overreads, Parsed, Argument;
  }

  lemma ClientCommandOwned(p: Proxy, s: Session, chunk: string, net: Net)
    requires GoodNet(net) && RolesDiffer(s) && Owned(s) <= p.open
    requires net.listen.Some? ==> Fresh(p, net.listen.value.fd)
    requires net.dial.Some? ==> Fresh(p, net.dial.value)
    requires net.listen.Some? && net.dial.Some? ==> net.listen.value.fd != net.dial.value
    ensures ClientCommand(s, chunk, net).Some? ==> Successor(p, s, ClientCommand(s, chunk, net).value)
  {
    hide RolesDiffer, Owned, Intercept, SendCommand;
    var r := Intercept(s, chunk, net);
    if r.Some? {
      InterceptOwned(p, s, chunk, net);
      SendCommandOwned(p, r.value, chunk, net);
    }
  }

  lemma AcceptOwned(p: Proxy, s: Session, fd: int)
    requires RolesDiffer(s) && Owned(s) <= p.open && Fresh(p, fd)
    ensures Successor(p, s, Accept(s, fd))
  {
  }

  lemma DataClosedOwned(p: Proxy, s: Session)
    requires RolesDiffer(s)
    ensures Successor(p, s, DataClosed(s))
  {
  }

  lemma ReadableOwned(p: Proxy, i: nat, fd: int, input: Input, answers: Answers)
    requires RegistryInv(p) && Allowed(p, ReadEvent(fd, input, answers)) && i < |p.sessions|
    ensures var r := Readable(p.sessions[i], fd, input, answers);
            r.Some? ==> Successor(p, p.sessions[i], r.value)
  {
    hide RolesDiffer, Owned, Successor, SameDescriptors, Accept, DataClosed;
    hide ServerCommand, ConnectionData, ClientCommand, SendData;
    var s := p.sessions[i];
    assert Registered(s, p.open, p.listener);
    if Is(s.serverData, fd) {
      if answers.accepted.Some? { AcceptOwned(p, s, answers.accepted.value); } else { SameSession(p, s); }
    } else if input.Closed? {
      DataClosedOwned(p, s);
    } else if input.Bytes? {
      ServerBytesOwned(s, input.chunk);
      if s.serverCommand.fd == fd {
        SameDescriptorsOwned(p, s, ServerCommand(s, input.chunk));
      } else if Is(s.serverConnection, fd) {
        SameDescriptorsOwned(p, s, ConnectionData(s, input.chunk));
      } else if s.clientCommand.fd == fd {
        ClientCommandOwned(p, s, input.chunk, answers.net);
      } else if Is(s.clientData, fd) {
        SendDataOwned(p, s, input.chunk, answers.net);
      } else {
        SameSession(p, s);
      }
    }
  }

  lemma SameSession(p: Proxy, s: Session)
    requires RolesDiffer(s)
    ensures Successor(p, s, s)
  {
    SameDescriptorsOwned(p, s, s);
  }

  lemma WritePacketOwned(s: Session, fd: int, script: Script)
    ensures SameDescriptors(s, WritePacket(s, fd, script))
  {
  }

  lemma ReadKeepsRegistry(p: Proxy, e: Event)
    requires RegistryInv(p) && Allowed(p, e) && e.ReadEvent?
    ensures RegistryInv(Do(p, e))
  {
    hide RolesDiffer, Readable, RegistryInv, InSession;
    var i := Find(p.sessions, e.fd);
    if i < |p.sessions| {
      var s := p.sessions[i];
      var r := Readable(s, e.fd, e.input, e.answers);
      assert Registered(s, p.open, p.listener) && p.listener in p.open by { Member(p, i); }
      if r.None? {
        Removed(p, i, p.open - Released(s, r));
      } else {
        ReadableOwned(p, i, e.fd, e.input, e.answers);
        Replaced(p, i, r.value, p.open - Released(s, r) + Owned(r.value));
      }
    }
  }

  lemma Member(p: Proxy, i: nat)
    requires RegistryInv(p) && i < |p.sessions|
    ensures Registered(p.sessions[i], p.open, p.listener) && p.listener in p.open
  {
  }

  lemma StepKeepsRegistry(p: Proxy, e: Event)
    requires RegistryInv(p) && Allowed(p, e)
    ensures RegistryInv(Do(p, e))
  {
    if e.ReadEvent? {
      ReadKeepsRegistry(p, e);
    } else if e.WriteEvent? {
      hide WritePacket, RolesDiffer, Owned, SameDescriptors;
      var i := Find(p.sessions, e.fd);
      if i < |p.sessions| {
        var s := p.sessions[i];
        assert Registered(s, p.open, p.listener);
        WritePacketOwned(s, e.fd, e.script);
        SameDescriptorsOwned(p, s, WritePacket(s, e.fd, e.script));
        Replaced(p, i, WritePacket(s, e.fd, e.script), p.open);
      }
    }
  }

  // ---- The relay ----

  // Every byte handed to a socket is written, pending or lost, and in order unless lost.
  predicate Accounted(s: Sock) {
    && |s.written| + |s.pending| + s.lost == |s.offered|
    && (s.lost == 0 ==> s.written + s.pending == s.offered)
    && |s.pending| <= s.size
  }

  // What the channels have been handed is what was read, or rewritten, for them.
  predicate Relays(s: Session) {
    s.overrun ||
    (&& Accounted(s.clientCommand) && s.clientCommand.offered == s.fromServer
     && Accounted(s.serverCommand) && s.serverCommand.offered == s.toServer
     && (s.clientData.Some? ==> Accounted(s.clientData.value) && s.clientData.value.offered == s.fromConnection))
  }

  lemma AppendAccounts(s: Sock, chunk: string)
    requires Accounted(s) && !Overrun(s, chunk)
    ensures Accounted(Appended(s, chunk)) && Appended(s, chunk).offered == s.offered + chunk
  {
    assert s.written + (s.pending + chunk) == (s.written + s.pending) + chunk;
    if chunk == "" { assert s.offered + chunk == s.offered; }
  }

  lemma FlushAccounts(s: Sock, script: Script)
    requires Accounted(s)
    ensures Accounted(Flushed(s, script)) && Flushed(s, script).offered == s.offered
  {
    TransferWithin(script, |s.pending|, 0);
    var moved := FullTransfer(script, |s.pending|, 0).moved;
    assert s.pending[..|s.pending|] == s.pending && s.written + s.pending + "" == s.written + s.pending;
  }

  lemma SendCommandRelays(s: Session, chunk: string, net: Net)
    requires Relays(s) && GoodNet(net)
    ensures Relays(SendCommand(s, chunk, net))
  {
    var text := Forwarded(chunk, net);
    if !s.overrun && !Overrun(s.serverCommand, text) { AppendAccounts(s.serverCommand, text); }
  }

  lemma ClientCommandRelays(s: Session, chunk: string, net: Net)
    requires Relays(s) && GoodNet(net)
    ensures ClientCommand(s, chunk, net).Some? ==> Relays(ClientCommand(s, chunk, net).value)
  {
    var r := Intercept(s, chunk, net);
    if r.Some? { SendCommandRelays(r.value, chunk, net); }
  }

  lemma ServerBytesRelay(s: Session, chunk: string)
    requires Relays(s)
    ensures Relays(ServerCommand(s, chunk)) && Relays(ConnectionData(s, chunk))
  {
    if !s.overrun {
      if !Overrun(s.clientCommand, chunk) { AppendAccounts(s.clientCommand, chunk); }
      if s.clientData.Some? && !Overrun(s.clientData.value, chunk) { AppendAccounts(s.clientData.value, chunk); }
    }
  }

  lemma ReadableRelays(s: Session, fd: int, input: Input, answers: Answers)
    requires Relays(s) && GoodNet(answers.net)
    ensures Readable(s, fd, input, answers).Some? ==> Relays(Readable(s, fd, input, answers).value)
  {
    if input.Bytes? && !Is(s.serverData, fd) {
      if s.serverCommand.fd == fd || Is(s.serverConnection, fd) {
        ServerBytesRelay(s, input.chunk);
      } else if s.clientCommand.fd == fd {
        ClientCommandRelays(s, input.chunk, answers.net);
      }
    }
  }

  lemma WriteRelays(s: Session, fd: int, script: Script)
    requires Relays(s)
    ensures Relays(WritePacket(s, fd, script))
  {
    if !s.overrun {
      FlushAccounts(s.clientCommand, script);
      FlushAccounts(s.serverCommand, script);
      if s.clientData.Some? { FlushAccounts(s.clientData.value, script); }
    }
  }

  ghost predicate Inv(p: Proxy) {
    RegistryInv(p) && forall i :: 0 <= i < |p.sessions| ==> Relays(p.sessions[i])
  }

  lemma StepKeepsInv(p: Proxy, e: Event)
    requires Inv(p) && Allowed(p, e)
    ensures Inv(Do(p, e))
  {
    StepKeepsRegistry(p, e);
    if !e.NewClient? {
      var i := Find(p.sessions, e.fd);
      if i < |p.sessions| {
        if e.ReadEvent? {
          ReadableRelays(p.sessions[i], e.fd, e.input, e.answers);
        } else {
          WriteRelays(p.sessions[i], e.fd, e.script);
        }
      }
    }
  }

  lemma {:induction false} RunKeepsInv(p: Proxy, run: seq<Event>)
    requires Inv(p) && Valid(p, run)
    ensures Inv(After(p, run))
    decreases |run|
  {
    if run != [] {
      StepKeepsInv(p, run[0]);
      RunKeepsInv(Do(p, run[0]), run[1..]);
    }
  }

  lemma ReachableInv(p: Proxy)
    requires Reachable(p)
    ensures Inv(p)
  {
    var listener: nat, run :| Valid(Start(listener), run) && After(Start(listener), run) == p;
    RunKeepsInv(Start(listener), run);
  }

  // ---- Main results ----

  /** In every run every listed session has two live command sockets, no descriptor has
      two owners or two roles, and so get_session_from_list answers the owner of a
      descriptor exactly when there is one. */
  lemma LookupFindsTheOwner(p: Proxy, fd: int)
    requires Reachable(p)
    ensures forall i :: 0 <= i < |p.sessions| ==> RolesDiffer(p.sessions[i]) && Owned(p.sessions[i]) <= p.open
    ensures var i := Find(p.sessions, fd);
            (i < |p.sessions| <==> exists k :: 0 <= k < |p.sessions| && fd in Owned(p.sessions[k])) &&
            forall k :: 0 <= k < |p.sessions| && fd in Owned(p.sessions[k]) ==> k == i
  {
    ReachableInv(p);
    var i := Find(p.sessions, fd);
    forall k | 0 <= k < |p.sessions| && fd in Owned(p.sessions[k]) ensures k == i {
      assert Registered(p.sessions[k], p.open, p.listener);
      InSessionMeansOwned(p.sessions[k], fd);
      assert i < k ==> Owned(p.sessions[i]) !! Owned(p.sessions[k]);
      if i < k { InSessionMeansOwned(p.sessions[i], fd); }
    }
    if i < |p.sessions| { InSessionMeansOwned(p.sessions[i], fd); }
  }

  /** The relay: in every run, for a session whose appends stayed inside their buffers,
      the bytes written to the client and the bytes pending for it are the bytes read
      from the server, in order, exactly when no flush or append lost any; and the loss
      is the exact difference in length. The same holds for the data channel since the
      client's data socket was opened, and for the commands forwarded to the server. */
  lemma StreamRelay(p: Proxy, i: nat)
    requires Reachable(p) && i < |p.sessions| && !p.sessions[i].overrun
    ensures var s := p.sessions[i]; var c := s.clientCommand;
            |c.written| + |c.pending| + c.lost == |s.fromServer| &&
            (c.written + c.pending == s.fromServer <==> c.lost == 0)
    ensures var s := p.sessions[i];
            s.clientData.Some? ==>
              (var d := s.clientData.value;
               |d.written| + |d.pending| + d.lost == |s.fromConnection| &&
               (d.written + d.pending == s.fromConnection <==> d.lost == 0))
    ensures var s := p.sessions[i]; var c := s.serverCommand;
            |c.written| + |c.pending| + c.lost == |s.toServer| &&
            (c.written + c.pending == s.toServer <==> c.lost == 0)
  {
    ReachableInv(p);
    assert Relays(p.sessions[i]);
  }

  /** What reaches the kernel at a writable event is the beginning of what was pending, as
      much as the kernel takes before its first refusal; it is what the history of the
      socket gains; and without a socket or anything pending the kernel is not asked. */
  lemma TransmitsExactly(t: Option<Sock>, script: Script, written: string, script': Script, written': string)
    requires Transmits(t, script, written, script', written')
    ensures t.Some? ==> written' == written + t.value.pending[..Min(|t.value.pending|, Capacity(script))]
    ensures t.Some? ==> |t.value.written| <= |Flushed(t.value, script).written| &&
                        written' == written + Flushed(t.value, script).written[|t.value.written|..]
    ensures t.None? || t.value.pending == "" ==> written' == written && script' == script
  {
    if t.Some? && t.value.pending != "" {
      TransferMeaning(script, |t.value.pending|, 0);
    } else {
      assert written + "" == written;
    }
  }

  /** The side condition is needed: when two reads from the server, with no writable event
      between them, bring more than 4096 bytes, these are copied past the client's buffer. */
  lemma OverrunIsReachable(n: nat, m: nat) returns (run: seq<Event>)
    requires 1 <= n <= 4096 && 1 <= m <= 4096
    ensures |run| == 3 && run[0] == NewClient(1, 2)
    ensures forall i :: 1 <= i < 3 ==>
              run[i].ReadEvent? && run[i].fd == 2 && run[i].input.Bytes? &&
              |run[i].input.chunk| == if i == 1 then n else m
    ensures Valid(Start(0), run)
    ensures var p := After(Start(0), run); |p.sessions| == 1 && (p.sessions[0].overrun <==> n + m > 4096)
  {
    hide Recognised;
    var nothing := Answers(None, Net(None, None));
    var open := NewClient(1, 2);
    var fill, more := ReadEvent(2, Bytes(seq(n, _ => 'x')), nothing), ReadEvent(2, Bytes(seq(m, _ => 'x')), nothing);
    var p1 := Do(Start(0), open);
    assert Find(p1.sessions, 2) == 0;
    var p2 := Do(p1, fill);
    assert Find(p2.sessions, 2) == 0 && |p2.sessions[0].clientCommand.pending| == n;
    var p := Do(p2, more);
    assert Valid(p2, [more]) && After(p2, [more]) == p by { assert [more][1..] == []; }
    assert Valid(p1, [fill, more]) && After(p1, [fill, more]) == p by { assert [fill, more][1..] == [more]; }
    run := [open, fill, more];
    assert run[1..] == [fill, more];
  }

  /** So is a PORT command that is copied from past the end of the receive buffer: any
      PORT line, its line end, and filler up to the last byte. */
  lemma OverreadIsReachable(e: Endpoint) returns (chunk: string, p: Proxy)
    requires e.address < 0x1_0000_0000 && e.port < 0x1_0000
    ensures PortLine(e) <= chunk && Received(chunk) && Overreads(chunk)
    ensures Reachable(p) && |p.sessions| == 1 && p.sessions[0].overrun
  {
    hide Recognised, PortLine, Overreads;
    chunk := FilledCommand(e);
    var nothing := Answers(None, Net(None, None));
    var open, read := NewClient(1, 2), ReadEvent(1, Bytes(chunk), nothing);
    var p1 := Do(Start(0), open);
    assert Find(p1.sessions, 1) == 0;
    FilledCommandOverruns(p1.sessions[0], chunk, nothing.net);
    p := Do(p1, read);
    var run := [open, read];
    assert Valid(p1, [read]) && After(p1, [read]) == p by { assert [read][1..] == []; }
    assert Valid(Start(0), run) && After(Start(0), run) == p by { assert run[1..] == [read]; }
  }

  lemma FilledCommandOverruns(s: Session, chunk: string, net: Net)
    requires Overreads(chunk) && GoodNet(net)
    ensures ClientCommand(s, chunk, net).Some? && ClientCommand(s, chunk, net).value.overrun
  {
    hide Recognised, Forwarded;
  }

  lemma FilledCommand(e: Endpoint) returns (chunk: string)
    requires e.address < 0x1_0000_0000 && e.port < 0x1_0000
    ensures PortLine(e) <= chunk && Received(chunk) && Overreads(chunk)
  {
    hide PortLine, Split, Until, Join;
    var v := PortSpec.Bytes(e.address) + [e.port / 256, e.port % 256];
    var line, body := PortLine(e), Join(PrintedFields(e), ',');
    PrintedWellFormed(e);
    RoundTrip(e);
    ArgumentOfWellFormed(PrintedFields(e), v, "\n");
    forall i | 0 <= i < 6 ensures Free(PrintedFields(e)[i], LINE_END) { WellFormedField(PrintedFields(e), v, "\n", i); }
    JoinFree(PrintedFields(e), ',', LINE_END);
    var filler := seq(COMMAND_BUFFER_SIZE - |line|, _ => 'x');
    chunk := line + filler;
    assert chunk[5..] == body + ("\n" + filler) && line[5..] == body + "\n";
    assert chunk[5..|chunk|] == chunk[5..] && line[5..|line|] == line[5..] && chunk[..4] == line[..4];
    UntilAt(body, "\n" + filler, LINE_END);
    UntilAt(body, "\n", LINE_END);
  }

  /** What a flush loses: nothing exactly when nothing was pending or the kernel took
      all of it before it failed or reported the end. */
  lemma FlushLossExactly(s: Sock, script: Script)
    ensures Flushed(s, script).lost == s.lost + |s.pending| - Min(|s.pending|, Capacity(script))
  {
    if s.pending != "" { TransferMeaning(script, |s.pending|, 0); }
  }

  function Sockets(s: Session): set<Sock> {
    {s.clientCommand, s.serverCommand} + Sole(s.clientData) + Sole(s.serverData) + Sole(s.serverConnection)
  }

  function Sole(s: Option<Sock>): set<Sock> {
    if s.Some? then {s.value} else {}
  }

  /** In every run the socket that is picked for a descriptor is the one that has it. */
  lemma PickedIsTheOwner(p: Proxy, i: nat, fd: int, t: Sock)
    requires Reachable(p) && i < |p.sessions|
    ensures Picked(p.sessions[i], fd) == Some(t) <==> t in Sockets(p.sessions[i]) && t.fd == fd
  {
    ReachableInv(p);
    assert Registered(p.sessions[i], p.open, p.listener);
  }

  function FlushedAt(s: Sock, fd: int, script: Script): Sock {
    if s.fd == fd then Flushed(s, script) else s
  }

  function FlushedIfAt(s: Option<Sock>, fd: int, script: Script): Option<Sock> {
    if s.None? then None else Some(FlushedAt(s.value, fd, script))
  }

  /** A writable descriptor: in every run the look-up by role comes to the same as
      flushing whichever socket has the descriptor, and that one only. */
  lemma WriteFlushesTheOwner(p: Proxy, i: nat, fd: int, script: Script)
    requires Reachable(p) && i < |p.sessions|
    ensures var s := p.sessions[i];
            WritePacket(s, fd, script) ==
              s.(clientCommand := FlushedAt(s.clientCommand, fd, script),
                 clientData := FlushedIfAt(s.clientData, fd, script),
                 serverCommand := FlushedAt(s.serverCommand, fd, script),
                 serverData := FlushedIfAt(s.serverData, fd, script),
                 serverConnection := FlushedIfAt(s.serverConnection, fd, script))
  {
    hide Flushed;
    ReachableInv(p);
    assert Registered(p.sessions[i], p.open, p.listener);
  }

  /** A corollary of LookupFindsTheOwner. Nothing crosses sessions: an event on a
      descriptor leaves every session that does not own it as it was, in its place. */
  lemma NothingCrossesSessions(p: Proxy, e: Event, k: nat)
    requires Reachable(p) && Allowed(p, e) && !e.NewClient? && k < |p.sessions|
    requires e.fd !in Owned(p.sessions[k])
    ensures var t := Do(p, e);
            if |t.sessions| == |p.sessions| || k < Find(p.sessions, e.fd)
            then k < |t.sessions| && t.sessions[k] == p.sessions[k]
            else 0 < k <= |t.sessions| && t.sessions[k - 1] == p.sessions[k]
  {
    LookupFindsTheOwner(p, e.fd);
    var i := Find(p.sessions, e.fd);
    if i < |p.sessions| { InSessionMeansOwned(p.sessions[i], e.fd); }
  }

  /** The PORT transaction: for a chunk that is one well-formed PORT line, with the
      kernel's calls succeeding and room for the new line, the proxy dials exactly the
      address the client named, and the server's buffer gains exactly one PORT line,
      which is recognised and parses back to the proxy's own listening address. Only a
      line that fills the receive buffer to the last byte is not read in bounds. */
  lemma PortTransaction(s: Session, fields: seq<string>, v: seq<nat>, eol: string, net: Net)
    requires WellFormed(fields, v, eol) && GoodNet(net)
    requires net.dial.Some? && net.listen.Some? && net.listen.value.name.Some?
    requires |s.serverCommand.pending| + 29 <= s.serverCommand.size
    ensures var own := net.listen.value.name.value;
            var chunk, line := "PORT " + Join(fields, ',') + eol, PortLine(own);
            var named := Endpoint(Address(v[0], v[1], v[2], v[3]), v[4] * 256 + v[5]);
            Recognised(line, |line|) && Parsed(line[5..]) == Some(own) &&
            if |chunk| == COMMAND_BUFFER_SIZE then
              ClientCommand(s, chunk, net).Some? && ClientCommand(s, chunk, net).value.overrun
            else
              ClientCommand(s, chunk, net) ==
                Some(s.(clientData := Some(NewSock(net.dial.value, DATA_BUFFER_SIZE)), fromConnection := "",
                        dialled := s.dialled + [named], toServer := s.toServer + line,
                        serverData := Some(NewSock(net.listen.value.fd, DATA_BUFFER_SIZE)),
                        serverCommand := s.serverCommand.(pending := s.serverCommand.pending + line,
                                                          offered := s.serverCommand.offered + line)))
  {
    hide Recognised, Parsed, PortLine, Address, WellFormed, Overreads, Argument, Join;
    var own := net.listen.value.name.value;
    WellFormedCommand(fields, v, eol);
    RoundTrip(own);
    OwnLineIsSent(s, "PORT " + Join(fields, ',') + eol, net);
    OwnLineIsSent(Dialled(s, net.dial.value, Named(v)), "PORT " + Join(fields, ',') + eol, net);
  }

  function Named(v: seq<nat>): Endpoint
    requires |v| == 6
  {
    Endpoint(Address(v[0], v[1], v[2], v[3]), v[4] * 256 + v[5])
  }

  lemma WellFormedCommand(fields: seq<string>, v: seq<nat>, eol: string)
    requires WellFormed(fields, v, eol)
    ensures |fields| == |v| == 6
    ensures var chunk := "PORT " + Join(fields, ',') + eol;
            Recognised(chunk, |chunk|) && (Overreads(chunk) <==> |chunk| == COMMAND_BUFFER_SIZE) &&
            Parsed(Argument(chunk)) == Some(Named(v))
  {
    hide Recognised, Parsed, Address;
    WellFormedIsRecognised(fields, v, eol);
    WellFormedParses(fields, v, eol);
    ArgumentOfWellFormed(fields, v, eol);
  }

  lemma OwnLineIsSent(s: Session, chunk: string, net: Net)
    requires Recognised(chunk, |chunk|) && GoodNet(net) && net.listen.Some? && net.listen.value.name.Some?
    requires |s.serverCommand.pending| + 29 <= s.serverCommand.size
    ensures var line := PortLine(net.listen.value.name.value);
            SendCommand(s, chunk, net) ==
              s.(toServer := s.toServer + line,
                 serverData := Some(NewSock(net.listen.value.fd, DATA_BUFFER_SIZE)),
                 serverCommand := s.serverCommand.(pending := s.serverCommand.pending + line,
                                                   offered := s.serverCommand.offered + line))
  {
    hide Recognised, PortLine;
    RoundTrip(net.listen.value.name.value);
  }

  lemma ArgumentOfWellFormed(fields: seq<string>, v: seq<nat>, eol: string)
    requires WellFormed(fields, v, eol)
    ensures var chunk := "PORT " + Join(fields, ',') + eol;
            NUL !in chunk[5..] && Argument(chunk) == Join(fields, ',') + eol
  {
    forall i | 0 <= i < 6 ensures Free(fields[i], {NUL}) { WellFormedField(fields, v, eol, i); }
    JoinFree(fields, ',', {NUL});
    var text := Join(fields, ',') + eol;
    assert ("PORT " + Join(fields, ',') + eol)[5..] == text;
    UntilAt(text, "", {NUL});
    assert text + "" == text;
  }

  /** The other case of PortTransaction: a chunk that is no PORT command goes to the server
      byte for byte, if it fits, and changes nothing else. */
  lemma OtherChunksPass(s: Session, chunk: string, net: Net)
    requires GoodNet(net) && !Recognised(chunk, |chunk|)
    requires |s.serverCommand.pending| + |chunk| <= s.serverCommand.size
    ensures ClientCommand(s, chunk, net) ==
              Some(s.(toServer := s.toServer + chunk,
                      serverCommand := s.serverCommand.(pending := s.serverCommand.pending + chunk,
                                                        offered := s.serverCommand.offered + chunk)))
  {
    var c := s.serverCommand;
    if chunk == "" { assert c.pending + chunk == c.pending && c.offered + chunk == c.offered; }
  }
}
