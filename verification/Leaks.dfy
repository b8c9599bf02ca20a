/** Which descriptors stay open without an owner. */
module Leaks {
  import opened Options
  import opened Sequences
  import opened PortSpec
  import opened SessionModel
  import opened Relay

  // Open, and neither the listener nor any session's.
  ghost function Unowned(p: Proxy): set<int> {
    set fd | fd in p.open && fd != p.listener && forall i :: 0 <= i < |p.sessions| ==> fd !in Owned(p.sessions[i])
  }

  function Fds(s: Option<Sock>): set<int> {
    if s.Some? then {s.value.fd} else {}
  }

  // A command that opens a listening socket replaces the old one.
  function LeakedByListening(s: Session, chunk: string, net: Net): set<int> {
    if Recognised(chunk, |chunk|) && net.listen.Some? then Fds(s.serverData) else {}
  }

  function LeakedByCommand(s: Session, chunk: string, net: Net): set<int> {
    if Recognised(chunk, |chunk|) && !Overreads(chunk) && Parsed(Argument(chunk)).Some? then
      if net.dial.None? then Fds(s.serverConnection)  // the session is removed
      else Fds(s.clientData) + LeakedByListening(s, chunk, net)
    else LeakedByListening(s, chunk, net)
  }

  // What a readable descriptor of session `s` leaves behind.
  function LeakedBy(s: Session, fd: int, input: Input, answers: Answers): set<int> {
    if Is(s.serverData, fd) then (if answers.accepted.Some? then Fds(s.serverConnection) else {})
    else if !input.Bytes? then (if input.Closed? && Is(s.serverConnection, fd) then {} else Fds(s.serverConnection))
    else if s.serverCommand.fd == fd || Is(s.serverConnection, fd) then {}
    else if s.clientCommand.fd == fd then LeakedByCommand(s, input.chunk, answers.net)
    else if Is(s.clientData, fd) then LeakedByListening(s, input.chunk, answers.net)
    else {}
  }

  // What an outcome for session `s` leaves open and unowned.
  function LeftBehind(s: Session, outcome: Option<Session>): set<int> {
    Owned(s) - Released(s, outcome) - if outcome.Some? then Owned(outcome.value) else {}
  }

  // ---- One session ----

  predicate NewTo(s: Session, net: Net) {
    && (net.dial.Some? ==> net.dial.value !in Owned(s))
    && (net.listen.Some? ==> net.listen.value.fd !in Owned(s))
  }

  lemma RemovalLeaks(s: Session)
    requires RolesDiffer(s)
    ensures LeftBehind(s, None) == Fds(s.serverConnection)
  {
  }

  lemma SameLeaksNothing(s: Session, t: Session)
    requires RolesDiffer(s) && SameDescriptors(s, t)
    ensures LeftBehind(s, Some(t)) == {}
  {
    SameDescriptorsOwned(Proxy([], 0, {}), s, t);
  }

  lemma DataClosedLeaksNothing(s: Session)
    requires RolesDiffer(s)
    ensures LeftBehind(s, Some(DataClosed(s))) == {}
  {
  }

  lemma AcceptLeaks(s: Session, fd: int)
    requires RolesDiffer(s) && fd !in Owned(s)
    ensures LeftBehind(s, Some(Accept(s, fd))) == Fds(s.serverConnection)
  {
  }

  // The sockets of a session after a command: `data` and `listening` may be new.
  lemma CommandLeaks(s: Session, t: Session, dials: bool, listens: bool)
    requires RolesDiffer(s)
    requires t.clientCommand.fd == s.clientCommand.fd && t.serverCommand.fd == s.serverCommand.fd
    requires SameDescriptor(s.serverConnection, t.serverConnection)
    requires if dials then t.clientData.Some? && t.clientData.value.fd !in Owned(s)
             else SameDescriptor(s.clientData, t.clientData)
    requires if listens then t.serverData.Some? && t.serverData.value.fd !in Owned(s)
             else SameDescriptor(s.serverData, t.serverData)
    ensures LeftBehind(s, Some(t)) ==
              (if dials then Fds(s.clientData) else {}) + (if listens then Fds(s.serverData) else {})
  {
  }

  lemma ClientCommandLeaks(s: Session, chunk: string, net: Net)
    requires RolesDiffer(s) && GoodNet(net) && NewTo(s, net)
    ensures LeftBehind(s, ClientCommand(s, chunk, net)) == LeakedByCommand(s, chunk, net)
  {
    hide RolesDiffer, Owned, LeftBehind, Overreads, Parsed, Forwarded, Argument;
    var r := ClientCommand(s, chunk, net);
    if r.None? {
      RemovalLeaks(s);
    } else {
      var known := Recognised(chunk, |chunk|);
      CommandLeaks(s, r.value, known && !Overreads(chunk) && Parsed(Argument(chunk)).Some?, known && net.listen.Some?);
    }
  }

  lemma SendDataLeaks(s: Session, chunk: string, net: Net)
    requires RolesDiffer(s) && GoodNet(net) && NewTo(s, net)
    ensures LeftBehind(s, Some(SendData(s, chunk, net))) == LeakedByListening(s, chunk, net)
  {
    hide RolesDiffer, Owned, LeftBehind, Recognised, Forwarded;
    CommandLeaks(s, SendData(s, chunk, net), false, Recognised(chunk, |chunk|) && net.listen.Some?);
  }

  lemma ReadableLeaks(s: Session, fd: int, input: Input, answers: Answers)
    requires RolesDiffer(s) && GoodNet(answers.net) && NewTo(s, answers.net)
    requires answers.accepted.Some? ==> answers.accepted.value !in Owned(s)
    ensures LeftBehind(s, Readable(s, fd, input, answers)) == LeakedBy(s, fd, input, answers)
  {
    hide RolesDiffer, Owned, LeftBehind, SameDescriptors, Accept, DataClosed, LeakedByCommand, LeakedByListening;
    hide ServerCommand, ConnectionData, ClientCommand, SendData;
    SameSession(Proxy([], 0, {}), s);
    Unchanged(s);
    if Is(s.serverData, fd) {
      if answers.accepted.Some? { AcceptLeaks(s, answers.accepted.value); }
    } else if input.Closed? && Is(s.serverConnection, fd) {
      ConnectionRole(s, fd);
      DataClosedLeaksNothing(s);
    } else if !input.Bytes? {
      RemovalLeaks(s);
    } else {
      ServerBytesOwned(s, input.chunk);
      SameLeaksNothing(s, ServerCommand(s, input.chunk));
      SameLeaksNothing(s, ConnectionData(s, input.chunk));
      ClientCommandLeaks(s, input.chunk, answers.net);
      SendDataLeaks(s, input.chunk, answers.net);
    }
  }

  lemma ConnectionRole(s: Session, fd: int)
    requires RolesDiffer(s) && Is(s.serverConnection, fd)
    ensures ServerRole(s, fd) == ServerConnectionRole
  {
  }

  lemma Unchanged(s: Session)
    requires RolesDiffer(s)
    ensures LeftBehind(s, Some(s)) == {}
  {
    SameLeaksNothing(s, s);
  }

  // ---- The proxy ----

  lemma OwnedByOne(p: Proxy, i: nat, fd: int)
    requires RegistryInv(p) && i < |p.sessions| && fd in Owned(p.sessions[i])
    ensures fd in p.open && fd != p.listener
    ensures forall k :: 0 <= k < |p.sessions| && k != i ==> fd !in Owned(p.sessions[k])
  {
    hide RolesDiffer, Owned;
    assert Registered(p.sessions[i], p.open, p.listener);
    forall k | 0 <= k < |p.sessions| && k != i ensures fd !in Owned(p.sessions[k]) {
      assert Owned(p.sessions[if i < k then i else k]) !! Owned(p.sessions[if i < k then k else i]);
    }
  }

  lemma RemovedUnowned(p: Proxy, i: nat, open: set<int>)
    requires RegistryInv(p) && i < |p.sessions| && open == p.open - Released(p.sessions[i], None)
    ensures Unowned(p.(sessions := Remove(p.sessions, i), open := open)) == Unowned(p) + LeftBehind(p.sessions[i], None)
  {
    hide RolesDiffer, Owned, RegistryInv, Released;
    var t := p.(sessions := Remove(p.sessions, i), open := open);
    hide Remove;
    ReleasedIsOwned(p.sessions[i], None);
    forall fd ensures fd in Unowned(t) <==> fd in Unowned(p) || fd in LeftBehind(p.sessions[i], None) {
      OwnedByOthers(p.sessions, i, fd);
      if fd in Owned(p.sessions[i]) { OwnedByOne(p, i, fd); }
    }
  }

  lemma OwnedByOthers(ss: seq<Session>, i: nat, fd: int)
    requires i < |ss|
    ensures var rest := Remove(ss, i);
            (forall k :: 0 <= k < |rest| ==> fd !in Owned(rest[k]))
            <==> forall k :: 0 <= k < |ss| && k != i ==> fd !in Owned(ss[k])
  {
    hide Owned;
    var rest := Remove(ss, i);
    if forall k :: 0 <= k < |rest| ==> fd !in Owned(rest[k]) {
      forall k | 0 <= k < |ss| && k != i ensures fd !in Owned(ss[k]) {
        var m := if k < i then k else k - 1;
        assert ss[k] == rest[m];
      }
    }
    if forall k :: 0 <= k < |ss| && k != i ==> fd !in Owned(ss[k]) {
      forall k | 0 <= k < |rest| ensures fd !in Owned(rest[k]) {
        var m := if k < i then k else k + 1;
        assert rest[k] == ss[m];
      }
    }
  }

  lemma ReleasedIsOwned(s: Session, outcome: Option<Session>)
    ensures Released(s, outcome) <= Owned(s)
  {
  }

  lemma ReplacedUnowned(p: Proxy, i: nat, s: Session, open: set<int>)
    requires RegistryInv(p) && i < |p.sessions| && open == p.open - Released(p.sessions[i], Some(s)) + Owned(s)
    requires Successor(p, p.sessions[i], s)
    ensures Unowned(p.(sessions := p.sessions[i := s], open := open)) == Unowned(p) + LeftBehind(p.sessions[i], Some(s))
  {
    var before, t := p.sessions[i], p.(sessions := p.sessions[i := s], open := open);
    hide RolesDiffer, Owned, RegistryInv, Released;
    ReleasedIsOwned(before, Some(s));
    assert forall fd :: fd in Owned(s) ==> fd in Owned(before) || fd !in p.open;
    assert t.sessions[i] == s && forall k :: 0 <= k < |p.sessions| && k != i ==> t.sessions[k] == p.sessions[k];
    forall fd ensures fd in Unowned(t) <==> fd in Unowned(p) || fd in LeftBehind(before, Some(s)) {
      assert fd in Owned(s) ==> fd in Owned(before) || fd !in p.open;
      if fd in Owned(before) { OwnedByOne(p, i, fd); }
    }
  }

  lemma WriteUnowned(p: Proxy, e: Event)
    requires RegistryInv(p) && e.WriteEvent?
    ensures Unowned(Do(p, e)) == Unowned(p)
  {
    hide RolesDiffer, WritePacket;
    var i := Find(p.sessions, e.fd);
    if i < |p.sessions| {
      var s := p.sessions[i];
      assert Registered(s, p.open, p.listener);
      WritePacketOwned(s, e.fd, e.script);
      SameDescriptorsOwned(p, s, WritePacket(s, e.fd, e.script));
      assert forall k :: 0 <= k < |p.sessions| ==> Owned(Do(p, e).sessions[k]) == Owned(p.sessions[k]);
    }
  }

  lemma NewUnowned(p: Proxy, e: Event)
    requires RegistryInv(p) && Allowed(p, e) && e.NewClient?
    ensures Unowned(Do(p, e)) == Unowned(p)
  {
    var t := Do(p, e);
    assert Owned(t.sessions[0]) == {e.clientFd, e.serverFd};
    hide Owned;
    assert forall k :: 0 < k < |t.sessions| ==> t.sessions[k] == p.sessions[k - 1];
    assert forall k :: 0 <= k < |p.sessions| ==> p.sessions[k] == t.sessions[k + 1];
    forall fd ensures fd in Unowned(t) <==> fd in Unowned(p) {
      if fd in {e.clientFd, e.serverFd} { assert fd in Owned(t.sessions[0]); }
    }
  }

  /** Every event leaves open, unowned, what was so before, and beside that exactly: an old
      connection, when another is accepted or its session goes; an old data socket, when
      another is dialled; an old listening socket, when another listens. */
  lemma LeaksExactly(p: Proxy, e: Event)
    requires RegistryInv(p) && Allowed(p, e)
    ensures var i := if e.ReadEvent? then Find(p.sessions, e.fd) else |p.sessions|;
            Unowned(Do(p, e)) ==
              Unowned(p) + if i < |p.sessions| then LeakedBy(p.sessions[i], e.fd, e.input, e.answers) else {}
  {
    hide RolesDiffer, Owned, Readable, Unowned, LeakedBy, LeftBehind, Released;
    if e.NewClient? {
      NewUnowned(p, e);
    } else if e.WriteEvent? {
      WriteUnowned(p, e);
    } else {
      var i := Find(p.sessions, e.fd);
      if i < |p.sessions| {
        var s := p.sessions[i];
        assert Registered(s, p.open, p.listener);
        var r := Readable(s, e.fd, e.input, e.answers);
        ReadableLeaks(s, e.fd, e.input, e.answers);
        if r.None? {
          RemovedUnowned(p, i, p.open - Released(s, r));
        } else {
          ReadableOwned(p, i, e.fd, e.input, e.answers);
          ReplacedUnowned(p, i, r.value, p.open - Released(s, r) + Owned(r.value));
        }
      }
    }
  }
}
