/** Whole exchanges through the proxy, from the first connection to the last byte. */
module Transfers {
  import opened Options
  import opened PortSpec
  import opened PortTheorems
  import opened Packet
  import opened SessionModel
  import opened Rewriting
  import opened Relay
  import opened Traffic

  const Nothing := Answers(None, Net(None, None))

  // A proxy with one session.
  function One(s: Session, open: set<int>): Proxy {
    Proxy([s], 0, open)
  }

  // One more event of a run that leaves one session, and what it does to that.
  lemma Next(run: seq<Event>, s: Session, open: set<int>, e: Event, t: Session, open': set<int>)
    requires Valid(Start(0), run) && After(Start(0), run) == One(s, open) && Allowed(One(s, open), e)
    requires Do(One(s, open), e) == One(t, open')
    ensures Valid(Start(0), run + [e]) && After(Start(0), run + [e]) == One(t, open')
  {
    hide Do;
    OneMore(Start(0), run, e);
  }

  lemma FirstSession()
    ensures Valid(Start(0), [NewClient(1, 2)])
    ensures After(Start(0), [NewClient(1, 2)]) == One(NewSession(1, 2), {0, 1, 2})
  {
    assert [NewClient(1, 2)][1..] == [];
  }

  lemma ReadStep(s: Session, open: set<int>, fd: int, input: Input, answers: Answers)
    requires GoodNet(answers.net) && InSession(s, fd) && Readable(s, fd, input, answers).Some?
    ensures var t := Readable(s, fd, input, answers);
            Do(One(s, open), ReadEvent(fd, input, answers)) == One(t.value, open - Released(s, t) + Owned(t.value))
  {
    hide Readable, InSession;
    assert Find([s], fd) == 0;
  }

  lemma WriteStep(s: Session, open: set<int>, fd: int, script: Script)
    requires InSession(s, fd)
    ensures Do(One(s, open), WriteEvent(fd, script)) == One(WritePacket(s, fd, script), open)
  {
    hide WritePacket, InSession;
    assert Find([s], fd) == 0;
  }

  // What an empty socket has written after one append and one flush.
  lemma OneChunkThrough(s: Sock, chunk: string, script: Script)
    requires s.pending == "" && 1 <= |chunk| <= s.size && |chunk| <= Capacity(script)
    ensures var t := Flushed(Appended(s, chunk), script);
            t.written == s.written + chunk && t.pending == "" && t.lost == s.lost && !Overrun(s, chunk)
  {
    assert "" + chunk == chunk;
    TransferMeaning(script, |chunk|, 0);
    assert chunk[..|chunk|] == chunk;
  }

  /** What the server says arrives at the client, once its descriptor is writable and the
      kernel takes as much. */
  lemma GreetingArrives(chunk: string, script: Script) returns (run: seq<Event>)
    requires 1 <= |chunk| <= 4096 && |chunk| <= Capacity(script)
    ensures run == [NewClient(1, 2), ReadEvent(2, Bytes(chunk), Nothing), WriteEvent(1, script)]
    ensures Valid(Start(0), run) && |After(Start(0), run).sessions| == 1
    ensures var s := After(Start(0), run).sessions[0];
            s.clientCommand.written == chunk && s.clientCommand.pending == "" && !s.overrun
  {
    hide Flushed, Appended, Overrun, Recognised;
    var s := NewSession(1, 2);
    FirstSession();
    OneChunkThrough(s.clientCommand, chunk, script);
    var t := ServerCommand(s, chunk);
    AppendKeepsFd(s.clientCommand, chunk);
    ReadStep(s, {0, 1, 2}, 2, Bytes(chunk), Nothing);
    Next([NewClient(1, 2)], s, {0, 1, 2}, ReadEvent(2, Bytes(chunk), Nothing), t, {0, 1, 2} + Owned(t));
    WriteStep(t, {0, 1, 2} + Owned(t), 1, script);
    run := [NewClient(1, 2)] + [ReadEvent(2, Bytes(chunk), Nothing)];
    Next(run, t, {0, 1, 2} + Owned(t), WriteEvent(1, script), WritePacket(t, 1, script), {0, 1, 2} + Owned(t));
    run := run + [WriteEvent(1, script)];
  }

  lemma AppendKeepsFd(s: Sock, chunk: string)
    ensures Appended(s, chunk).fd == s.fd
  {
  }

  lemma FlushKeepsFd(s: Sock, script: Script)
    ensures Flushed(s, script).fd == s.fd
  {
  }

  // ---- A transfer in active mode ----

  // The answers to a PORT command: descriptor 3 towards the client, 4 for the server.
  function PortAnswers(own: Endpoint): (a: Answers)
    requires GoodName(own)
    ensures GoodNet(a.net)
  {
    Answers(None, Net(Some(3), Some(Listening(4, Some(own)))))
  }

  function TransferRun(e: Endpoint, own: Endpoint, chunk: string, script: Script): seq<Event>
    requires GoodName(e) && GoodName(own)
  {
    [NewClient(1, 2),
     ReadEvent(1, Bytes(PortLine(e)), PortAnswers(own)),
     ReadEvent(4, Broken, Answers(Some(5), Net(None, None))),  // the server connects
     ReadEvent(5, Bytes(chunk), Nothing),
     WriteEvent(3, script)]
  }

  lemma PortStep(e: Endpoint, own: Endpoint) returns (s: Session)
    requires GoodName(e) && GoodName(own)
    ensures ClientCommand(NewSession(1, 2), PortLine(e), PortAnswers(own).net) == Some(s)
    ensures s.clientData == Some(NewSock(3, 32768)) && s.serverData == Some(NewSock(4, 32768))
    ensures s.serverConnection == None
    ensures s.dialled == [e] && s.serverCommand.pending == PortLine(own) && !s.overrun && s.fromConnection == ""
    ensures s.clientCommand.fd == 1 && s.serverCommand.fd == 2 && 1 <= |PortLine(e)| <= 4096
  {
    hide PortLine, ClientCommand, Recognised, Parsed, Address, PortSpec.Bytes;
    var v := PortSpec.Bytes(e.address) + [e.port / 256, e.port % 256];
    PrintedWellFormed(e);
    RoundTrip(e);
    PortTransaction(NewSession(1, 2), PrintedFields(e), v, "\n", PortAnswers(own).net);
    s := ClientCommand(NewSession(1, 2), PortLine(e), PortAnswers(own).net).value;
    SameEndpoint(e);
    assert [] + [e] == [e] && "" + PortLine(own) == PortLine(own);
  }

  lemma SameEndpoint(e: Endpoint)
    requires GoodName(e)
    ensures var b := PortSpec.Bytes(e.address);
            Endpoint(Address(b[0], b[1], b[2], b[3]), e.port / 256 * 256 + e.port % 256) == e
  {
  }

  /** A client names its data port, the server connects to the proxy's, and what it sends
      there arrives at the client's data port: the proxy has dialled exactly the address
      that the client named, and told the server its own. */
  lemma DataArrives(e: Endpoint, own: Endpoint, chunk: string, script: Script)
    requires GoodName(e) && GoodName(own) && 1 <= |chunk| <= 4096 && |chunk| <= Capacity(script)
    ensures Valid(Start(0), TransferRun(e, own, chunk, script))
    ensures var p := After(Start(0), TransferRun(e, own, chunk, script));
            |p.sessions| == 1 &&
            var s := p.sessions[0];
            s.clientData.Some? && s.clientData.value.fd == 3 && s.clientData.value.written == chunk &&
            s.dialled == [e] && s.serverCommand.pending == PortLine(own) && !s.overrun
  {
    hide Flushed, Appended, Overrun, PortLine, ClientCommand;
    var s0 := NewSession(1, 2);
    var events := TransferRun(e, own, chunk, script);
    FirstSession();
    var s1 := PortStep(e, own);
    ReadStep(s0, {0, 1, 2}, 1, Bytes(PortLine(e)), PortAnswers(own));
    var o1 := {0, 1, 2} + Owned(s1);
    Next(events[..1], s0, {0, 1, 2}, events[1], s1, o1);
    Parts(events);
    var s2 := Accept(s1, 5);
    ReadStep(s1, o1, 4, Broken, Answers(Some(5), Net(None, None)));
    var o2 := o1 + Owned(s2);
    Next(events[..2], s1, o1, events[2], s2, o2);
    var s3 := ConnectionData(s2, chunk);
    OneChunkThrough(NewSock(3, 32768), chunk, script);
    AppendKeepsFd(NewSock(3, 32768), chunk);
    ReadStep(s2, o2, 5, Bytes(chunk), Nothing);
    var o3 := o2 + Owned(s3);
    Next(events[..3], s2, o2, events[3], s3, o3);
    WriteStep(s3, o3, 3, script);
    Next(events[..4], s3, o3, events[4], WritePacket(s3, 3, script), o3);
    FlushKeepsFd(s3.clientData.value, script);
    assert "" + chunk == chunk;
  }

  lemma Parts(events: seq<Event>)
    requires |events| == 5
    ensures events[..1] == [events[0]] && events[..1] + [events[1]] == events[..2]
    ensures events[..2] + [events[2]] == events[..3]
    ensures events[..3] + [events[3]] == events[..4] && events[..4] + [events[4]] == events
  {
  }

  // ---- A second PORT ----

  lemma SecondPort(s: Session, e: Endpoint, own: Endpoint) returns (t: Session)
    requires GoodName(e) && GoodName(own) && |s.serverCommand.pending| + 29 <= s.serverCommand.size
    ensures var net := Net(Some(5), Some(Listening(6, Some(own))));
            GoodNet(net) && ClientCommand(s, PortLine(e), net) == Some(t)
    ensures t.clientData == Some(NewSock(5, 32768)) && t.serverData == Some(NewSock(6, 32768))
    ensures t.clientCommand.fd == s.clientCommand.fd && t.serverCommand.fd == s.serverCommand.fd
    ensures t.serverConnection == s.serverConnection
  {
    hide PortLine, ClientCommand, Recognised, Parsed, Address, PortSpec.Bytes;
    var v := PortSpec.Bytes(e.address) + [e.port / 256, e.port % 256];
    var net := Net(Some(5), Some(Listening(6, Some(own))));
    PrintedWellFormed(e);
    RoundTrip(e);
    PortTransaction(s, PrintedFields(e), v, "\n", net);
    t := ClientCommand(s, PortLine(e), net).value;
  }

  /** A second PORT leaves the sockets of the first open: no session has them any more. */
  lemma SecondPortLeaks(e: Endpoint, own: Endpoint) returns (run: seq<Event>)
    requires GoodName(e) && GoodName(own)
    ensures Valid(Start(0), run) && |run| == 3
    ensures var p := After(Start(0), run);
            |p.sessions| == 1 && {3, 4} <= p.open && 3 !in Owned(p.sessions[0]) && 4 !in Owned(p.sessions[0])
  {
    hide PortLine, ClientCommand;
    var s0 := NewSession(1, 2);
    FirstSession();
    var s1 := PortStep(e, own);
    var again := Answers(None, Net(Some(5), Some(Listening(6, Some(own)))));
    var first, second := ReadEvent(1, Bytes(PortLine(e)), PortAnswers(own)), ReadEvent(1, Bytes(PortLine(e)), again);
    ReadStep(s0, {0, 1, 2}, 1, Bytes(PortLine(e)), PortAnswers(own));
    var o1 := {0, 1, 2} + Owned(s1);
    Next([NewClient(1, 2)], s0, {0, 1, 2}, first, s1, o1);
    RoundTrip(own);
    RoomForAnother(s0, s1, e, own);
    var s2 := SecondPort(s1, e, own);
    ReadStep(s1, o1, 1, Bytes(PortLine(e)), again);
    Next([NewClient(1, 2)] + [first], s1, o1, second, s2, o1 + Owned(s2));
    run := [NewClient(1, 2)] + [first] + [second];
  }

  lemma RoomForAnother(s: Session, t: Session, e: Endpoint, own: Endpoint)
    requires GoodName(e) && GoodName(own) && s == NewSession(1, 2)
    requires ClientCommand(s, PortLine(e), PortAnswers(own).net) == Some(t) && t.serverCommand.pending == PortLine(own)
    ensures |t.serverCommand.pending| + 29 <= t.serverCommand.size
  {
    hide PortLine, Recognised, Parsed;
    RoundTrip(own);
  }
}
