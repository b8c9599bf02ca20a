/** When an append overruns and when a flush loses bytes, by the events of a run alone. */
module Backlogs {
  import opened Options
  import opened Packet
  import opened PortSpec
  import opened PortTheorems
  import opened SessionModel
  import opened Relay
  import opened Traffic

  // What waits for the next writable event on a descriptor, and what such events lost.
  datatype Backlog = Backlog(pending: string, lost: nat)

  const NoBacklog := Backlog("", 0)

  predicate Fits(b: Backlog, text: string, size: nat) {
    |b.pending| + |text| <= size
  }

  function Queued(b: Backlog, text: string): Backlog {
    b.(pending := b.pending + text)
  }

  // The kernel takes what it can; the rest is dropped.
  function Sent(b: Backlog, script: Script): Backlog {
    Backlog("", b.lost + |b.pending| - Min(|b.pending|, Capacity(script)))
  }

  // The four sockets of a session that text is queued on. `over`: some text did not fit,
  // or was copied from past the receive buffer.
  datatype Load = Load(channel: Channel, toClient: Backlog, toServer: Backlog, toData: Backlog, toListener: Backlog,
                       over: bool)

  const NoLoad := Load(Channel(None, None, None, ""), NoBacklog, NoBacklog, NoBacklog, NoBacklog, false)

  function Listens(l: Load, chunk: string, net: Net): Load {
    if Recognised(chunk, |chunk|) && net.listen.Some? then l.(toListener := NoBacklog) else l
  }

  function FromCommand(l: Load, chunk: string, net: Net): Load
    requires GoodNet(net)
  {
    var text := Forwarded(chunk, net);
    var dials := Recognised(chunk, |chunk|) && !Overreads(chunk) && Parsed(Argument(chunk)).Some? && net.dial.Some?;
    Listens(if dials then l.(toData := NoBacklog) else l, chunk, net)
    .(toServer := Queued(l.toServer, text),
      over := l.over || Overreads(chunk) || !Fits(l.toServer, text, COMMAND_BUFFER_SIZE))
  }

  function FromData(l: Load, chunk: string, net: Net): Load
    requires GoodNet(net)
  {
    var text := Forwarded(chunk, net);
    Listens(
      if l.channel.listening.None? then l
      else l.(toListener := Queued(l.toListener, text), over := l.over || !Fits(l.toListener, text, DATA_BUFFER_SIZE)),
      chunk, net)
  }

  function Loaded(l: Load, clientFd: int, serverFd: int, e: Event): Load
    requires e.ReadEvent? ==> GoodNet(e.answers.net)
  {
    match e
    case NewClient(fd, _) => if fd == clientFd then NoLoad else l
    case WriteEvent(fd, script) =>
      if fd == clientFd then l.(toClient := Sent(l.toClient, script))
      else if l.channel.data == Some(fd) then l.(toData := Sent(l.toData, script))
      else if fd == serverFd then l.(toServer := Sent(l.toServer, script))
      else if l.channel.listening == Some(fd) then l.(toListener := Sent(l.toListener, script))
      else l
    case ReadEvent(fd, input, answers) =>
      var c := l.channel;
      (if !input.Bytes? || c.listening == Some(fd) then l
       else if fd == serverFd then
         l.(toClient := Queued(l.toClient, input.chunk),
            over := l.over || !Fits(l.toClient, input.chunk, COMMAND_BUFFER_SIZE))
       else if c.connection == Some(fd) then
         (if c.data.None? then l
          else l.(toData := Queued(l.toData, input.chunk),
                  over := l.over || !Fits(l.toData, input.chunk, DATA_BUFFER_SIZE)))
       else if fd == clientFd then FromCommand(l, input.chunk, answers.net)
       else if c.data == Some(fd) then FromData(l, input.chunk, answers.net)
       else l).(channel := Advance(c, clientFd, e))
  }

  function LoadOf(run: seq<Event>, clientFd: int, serverFd: int): Load
    requires forall i :: 0 <= i < |run| && run[i].ReadEvent? ==> GoodNet(run[i].answers.net)
  {
    if run == [] then NoLoad
    else Loaded(LoadOf(run[..|run| - 1], clientFd, serverFd), clientFd, serverFd, run[|run| - 1])
  }

  // ---- Sessions carry these loads ----

  predicate Carries(s: Sock, b: Backlog, size: nat) {
    s.pending == b.pending && s.lost == b.lost && s.size == size && |s.pending| <= size
  }

  predicate CarriesAll(s: Session, l: Load) {
    && Carries(s.clientCommand, l.toClient, COMMAND_BUFFER_SIZE)
    && Carries(s.serverCommand, l.toServer, COMMAND_BUFFER_SIZE)
    && (s.clientData.Some? ==> Carries(s.clientData.value, l.toData, DATA_BUFFER_SIZE))
    && (s.serverData.Some? ==> Carries(s.serverData.value, l.toListener, DATA_BUFFER_SIZE))
  }

  predicate Bears(s: Session, l: Load) {
    ChannelOf(s) == l.channel && s.overrun == l.over && (!l.over ==> CarriesAll(s, l))
  }

  lemma AppendCarries(s: Sock, b: Backlog, size: nat, text: string)
    requires Carries(s, b, size) && |text| <= size
    ensures Overrun(s, text) <==> !Fits(b, text, size)
    ensures Fits(b, text, size) ==> Carries(Appended(s, text), Queued(b, text), size)
  {
    if text == "" { assert b.pending + text == b.pending; }
  }

  lemma FlushCarries(s: Sock, b: Backlog, size: nat, script: Script)
    requires Carries(s, b, size)
    ensures Carries(Flushed(s, script), Sent(b, script), size)
  {
    FlushLossExactly(s, script);
  }

  lemma ForwardedSize(chunk: string, net: Net)
    requires GoodNet(net) && |chunk| <= COMMAND_BUFFER_SIZE
    ensures |Forwarded(chunk, net)| <= COMMAND_BUFFER_SIZE
  {
    hide Recognised, PortLine;
    if net.listen.Some? && net.listen.value.name.Some? { RoundTrip(net.listen.value.name.value); }
  }

  lemma CommandBears(s: Session, l: Load, chunk: string, net: Net)
    requires Bears(s, l) && GoodNet(net) && |chunk| <= COMMAND_BUFFER_SIZE && ClientCommand(s, chunk, net).Some?
    ensures var t, l' := ClientCommand(s, chunk, net).value, FromCommand(l, chunk, net);
            t.overrun == l'.over && (!l'.over ==> CarriesAll(t, l'))
  {
    hide Recognised, Forwarded, Parsed, Argument, Appended, Overrun, Fits, Queued;
    ForwardedSize(chunk, net);
    if !l.over { AppendCarries(s.serverCommand, l.toServer, COMMAND_BUFFER_SIZE, Forwarded(chunk, net)); }
  }

  lemma DataBears(s: Session, l: Load, chunk: string, net: Net)
    requires Bears(s, l) && GoodNet(net) && |chunk| <= COMMAND_BUFFER_SIZE
    ensures var t, l' := SendData(s, chunk, net), FromData(l, chunk, net);
            t.overrun == l'.over && (!l'.over ==> CarriesAll(t, l'))
  {
    hide Recognised, Forwarded, Appended, Overrun, Fits, Queued;
    ForwardedSize(chunk, net);
    if !l.over && s.serverData.Some? {
      AppendCarries(s.serverData.value, l.toListener, DATA_BUFFER_SIZE, Forwarded(chunk, net));
    }
  }

  lemma ServerBytesBear(s: Session, l: Load, chunk: string)
    requires Bears(s, l) && |chunk| <= COMMAND_BUFFER_SIZE
    ensures var t := ServerCommand(s, chunk);
            var l' := l.(toClient := Queued(l.toClient, chunk),
                         over := l.over || !Fits(l.toClient, chunk, COMMAND_BUFFER_SIZE));
            t.overrun == l'.over && (!l'.over ==> CarriesAll(t, l'))
    ensures var t := ConnectionData(s, chunk);
            var l' := if l.channel.data.None? then l
                      else l.(toData := Queued(l.toData, chunk),
                              over := l.over || !Fits(l.toData, chunk, DATA_BUFFER_SIZE));
            t.overrun == l'.over && (!l'.over ==> CarriesAll(t, l'))
  {
    hide Appended, Overrun, Fits, Queued;
    if !l.over {
      AppendCarries(s.clientCommand, l.toClient, COMMAND_BUFFER_SIZE, chunk);
      if s.clientData.Some? { AppendCarries(s.clientData.value, l.toData, DATA_BUFFER_SIZE, chunk); }
    }
  }

  lemma ReadableBears(s: Session, l: Load, fd: int, input: Input, answers: Answers)
    requires RolesDiffer(s) && Bears(s, l) && GoodNet(answers.net) && (input.Bytes? ==> Received(input.chunk))
    requires Readable(s, fd, input, answers).Some?
    ensures var e := ReadEvent(fd, input, answers);
            Bears(Readable(s, fd, input, answers).value, Loaded(l, s.clientCommand.fd, s.serverCommand.fd, e))
  {
    hide FromCommand, FromData, ClientCommand, SendData, ServerCommand, ConnectionData, Advance, Queued, Fits;
    ReadableHears(s, fd, input, answers);
    if input.Bytes? {
      ServerBytesBear(s, l, input.chunk);
      if s.clientCommand.fd == fd && !Is(s.serverData, fd) && !Is(s.serverConnection, fd) {
        CommandBears(s, l, input.chunk, answers.net);
      }
      DataBears(s, l, input.chunk, answers.net);
    }
  }

  lemma WriteBears(s: Session, l: Load, fd: int, script: Script)
    requires RolesDiffer(s) && Bears(s, l)
    ensures Bears(WritePacket(s, fd, script), Loaded(l, s.clientCommand.fd, s.serverCommand.fd, WriteEvent(fd, script)))
  {
    hide Flushed, Sent;
    WritingIsNotHeard(s, WriteEvent(fd, script));
    if !l.over {
      FlushCarries(s.clientCommand, l.toClient, COMMAND_BUFFER_SIZE, script);
      FlushCarries(s.serverCommand, l.toServer, COMMAND_BUFFER_SIZE, script);
      if s.clientData.Some? { FlushCarries(s.clientData.value, l.toData, DATA_BUFFER_SIZE, script); }
      if s.serverData.Some? { FlushCarries(s.serverData.value, l.toListener, DATA_BUFFER_SIZE, script); }
    }
  }

  lemma OthersBear(s: Session, l: Load, e: Event)
    requires Bears(s, l) && (e.ReadEvent? ==> GoodNet(e.answers.net))
    requires if e.NewClient? then e.clientFd != s.clientCommand.fd else e.fd !in Owned(s)
    ensures Loaded(l, s.clientCommand.fd, s.serverCommand.fd, e) == l
  {
    hide FromCommand, FromData, Advance;
    OthersDoNotHear(s, e);
  }

  /** In every run the loads are what the events say: a session is marked overrun exactly
      when, by the tracker, some text did not fit behind what waited, or was read from past
      the receive buffer; and until then each socket has pending, and has lost, exactly
      what the tracker says. */
  lemma {:induction false} LoadsAreExact(listener: nat, run: seq<Event>, k: nat)
    requires Valid(Start(listener), run) && k < |After(Start(listener), run).sessions|
    ensures forall i :: 0 <= i < |run| && run[i].ReadEvent? ==> GoodNet(run[i].answers.net)
    ensures var s := After(Start(listener), run).sessions[k];
            Bears(s, LoadOf(run, s.clientCommand.fd, s.serverCommand.fd))
    decreases |run|
  {
    GoodNets(Start(listener), run);
    if run != [] {
      var init, e := run[..|run| - 1], run[|run| - 1];
      Last(Start(listener), run);
      RunKeepsInv(Start(listener), init);
      var p := After(Start(listener), init);
      if !(e.NewClient? && k == 0) {
        var j := Origin(p, e, k);
        LoadsAreExact(listener, init, j);
        var s := p.sessions[j];
        StepBears(p, e, j, Do(p, e).sessions[k], LoadOf(init, s.clientCommand.fd, s.serverCommand.fd));
      }
    }
  }

  lemma StepBears(p: Proxy, e: Event, j: nat, t: Session, l: Load)
    requires RegistryInv(p) && Allowed(p, e) && j < |p.sessions| && Bears(p.sessions[j], l)
    requires var s := p.sessions[j];
             if e.NewClient? || e.fd !in Owned(s) then t == s
             else if e.ReadEvent? then Readable(s, e.fd, e.input, e.answers) == Some(t)
             else t == WritePacket(s, e.fd, e.script)
    ensures var s := p.sessions[j];
            t.clientCommand.fd == s.clientCommand.fd && t.serverCommand.fd == s.serverCommand.fd &&
            Bears(t, Loaded(l, s.clientCommand.fd, s.serverCommand.fd, e))
  {
    hide Readable, WritePacket, Loaded, Bears, RolesDiffer;
    var s := p.sessions[j];
    assert Registered(s, p.open, p.listener);
    StepIsTraffic(p, e, j, t);
    assert {s.serverCommand.fd, s.clientCommand.fd} <= Owned(s);
    if e.NewClient? || e.fd !in Owned(s) {
      OthersBear(s, l, e);
    } else if e.ReadEvent? {
      ReadableBears(s, l, e.fd, e.input, e.answers);
    } else {
      WriteBears(s, l, e.fd, e.script);
    }
  }

  /** So what EndToEnd asks of a session, and what it leaves to the flushes, are told by the
      events: nothing overran exactly if every text read for a channel fitted behind what was
      read for it since its last writable event; and then a channel has delivered all that
      was read for it exactly if at none of those events more was waiting than the kernel took. */
  lemma DeliveryIsTold(listener: nat, run: seq<Event>, k: nat)
    requires Valid(Start(listener), run) && k < |After(Start(listener), run).sessions|
    ensures forall i :: 0 <= i < |run| && run[i].ReadEvent? ==> GoodNet(run[i].answers.net)
    ensures var s := After(Start(listener), run).sessions[k];
            var l := LoadOf(run, s.clientCommand.fd, s.serverCommand.fd);
            (s.overrun <==> l.over) &&
            (!l.over ==>
               Arrived(s.clientCommand, FromServer(run, s.serverCommand.fd), l.toClient) &&
               Arrived(s.serverCommand, FromClient(run, s.clientCommand.fd), l.toServer) &&
               (s.clientData.Some? ==>
                  Arrived(s.clientData.value, FromConnection(run, s.clientCommand.fd), l.toData)))
  {
    LoadsAreExact(listener, run, k);
    if !After(Start(listener), run).sessions[k].overrun { EndToEnd(listener, run, k); }
  }

  // `text` was read for the socket, of which `b` is what waits and how much was lost.
  predicate Arrived(c: Sock, text: string, b: Backlog) {
    c.pending == b.pending && |c.written| + |b.pending| + b.lost == |text| &&
    (c.written + b.pending == text <==> b.lost == 0)
  }

  // ---- The two command channels in closed form ----

  // What was read for a channel, `said` of each event, since its last writable event: a
  // channel that is opened with the client on `clientFd` and written to on `writeFd`.
  function Waiting(run: seq<Event>, clientFd: int, writeFd: int, said: Event -> string): string {
    if run == [] then ""
    else
      var e := run[|run| - 1];
      if (e.NewClient? && e.clientFd == clientFd) || (e.WriteEvent? && e.fd == writeFd) then ""
      else Waiting(run[..|run| - 1], clientFd, writeFd, said) + said(e)
  }

  // By how much its writable events fell short, in all.
  function Shortfall(run: seq<Event>, clientFd: int, writeFd: int, said: Event -> string): nat {
    if run == [] then 0
    else
      var init, e := run[..|run| - 1], run[|run| - 1];
      if e.NewClient? && e.clientFd == clientFd then 0
      else
        var waiting := |Waiting(init, clientFd, writeFd, said)|;
        Shortfall(init, clientFd, writeFd, said) +
        if e.WriteEvent? && e.fd == writeFd then waiting - Min(waiting, Capacity(e.script)) else 0
  }

  // What an event brings from the server for the client, and the other way round.
  function ForClient(serverFd: int): Event -> string {
    (e: Event) => if e.ReadEvent? && e.fd == serverFd && e.input.Bytes? then e.input.chunk else ""
  }

  function ForServer(clientFd: int): Event -> string {
    (e: Event) =>
      if e.ReadEvent? && e.fd == clientFd && e.input.Bytes? && GoodNet(e.answers.net)
      then Forwarded(e.input.chunk, e.answers.net) else ""
  }

  function Plain(run: seq<Event>, clientFd: int, writeFd: int, said: Event -> string): Backlog {
    Backlog(Waiting(run, clientFd, writeFd, said), Shortfall(run, clientFd, writeFd, said))
  }

  function PlainNext(b: Backlog, clientFd: int, writeFd: int, said: Event -> string, e: Event): Backlog {
    if e.NewClient? && e.clientFd == clientFd then NoBacklog
    else if e.WriteEvent? && e.fd == writeFd then Sent(b, e.script)
    else Queued(b, said(e))
  }

  lemma PlainGoesOn(run: seq<Event>, clientFd: int, writeFd: int, said: Event -> string)
    requires run != []
    ensures Plain(run, clientFd, writeFd, said)
         == PlainNext(Plain(run[..|run| - 1], clientFd, writeFd, said), clientFd, writeFd, said, run[|run| - 1])
  {
  }

  lemma PlainStep(s: Session, l: Load, e: Event)
    requires RolesDiffer(s) && ChannelOf(s) == l.channel && (e.ReadEvent? ==> GoodNet(e.answers.net))
    requires e.NewClient? ==> e.clientFd != s.clientCommand.fd
    ensures var c, d := s.clientCommand.fd, s.serverCommand.fd; var l' := Loaded(l, c, d, e);
            l'.toClient == PlainNext(l.toClient, c, c, ForClient(d), e) &&
            l'.toServer == PlainNext(l.toServer, c, d, ForServer(c), e)
  {
    hide Recognised, Forwarded, Sent, Advance, Overreads, Fits, Parsed, Argument;
    assert l.toClient.pending + "" == l.toClient.pending && l.toServer.pending + "" == l.toServer.pending;
  }

  /** Of the command channels, what waits is what was read for them since the last writable
      event of the socket they are written to, and what is lost is the sum of what those
      events fell short of it. */
  lemma {:induction false} CommandBacklogs(listener: nat, run: seq<Event>, k: nat)
    requires Valid(Start(listener), run) && k < |After(Start(listener), run).sessions|
    ensures forall i :: 0 <= i < |run| && run[i].ReadEvent? ==> GoodNet(run[i].answers.net)
    ensures var s := After(Start(listener), run).sessions[k];
            var c, d := s.clientCommand.fd, s.serverCommand.fd;
            LoadOf(run, c, d).toClient == Plain(run, c, c, ForClient(d)) &&
            LoadOf(run, c, d).toServer == Plain(run, c, d, ForServer(c))
    decreases |run|
  {
    hide Loaded, Plain, PlainNext, Bears, RolesDiffer;
    GoodNets(Start(listener), run);
    if run != [] {
      var init, e := run[..|run| - 1], run[|run| - 1];
      Last(Start(listener), run);
      RunKeepsInv(Start(listener), init);
      var p, t := After(Start(listener), init), After(Start(listener), run).sessions[k];
      var c, d := t.clientCommand.fd, t.serverCommand.fd;
      PlainGoesOn(run, c, c, ForClient(d));
      PlainGoesOn(run, c, d, ForServer(c));
      if e.NewClient? && k == 0 {
        NewIsPlain(LoadOf(init, c, d), init, c, d, e);
      } else {
        var j := Origin(p, e, k);
        var s := p.sessions[j];
        CommandBacklogs(listener, init, j);
        LoadsAreExact(listener, init, j);
        StepIsTraffic(p, e, j, t);
        BearsChannel(s, LoadOf(init, c, d));
        assert Registered(s, p.open, p.listener) && {c, d} <= Owned(s);
        PlainStep(s, LoadOf(init, c, d), e);
      }
    }
  }

  lemma BearsChannel(s: Session, l: Load)
    requires Bears(s, l)
    ensures ChannelOf(s) == l.channel
  {
  }

  lemma NewIsPlain(l: Load, init: seq<Event>, c: int, d: int, e: Event)
    requires e.NewClient? && e.clientFd == c
    ensures Loaded(l, c, d, e).toClient == PlainNext(Plain(init, c, c, ForClient(d)), c, c, ForClient(d), e)
    ensures Loaded(l, c, d, e).toServer == PlainNext(Plain(init, c, d, ForServer(c)), c, d, ForServer(c), e)
  {
  }

  // A writable event loses nothing exactly when the kernel takes all that waits.
  lemma LosslessExactly(b: Backlog, script: Script)
    ensures Sent(b, script).lost == b.lost <==> |b.pending| <= Capacity(script)
    ensures Sent(b, script).lost >= b.lost
  {
  }

  /** A byte is lost when one flush fails. */
  lemma LossIsReachable() returns (run: seq<Event>)
    ensures Valid(Start(0), run)
    ensures var p := After(Start(0), run);
            |p.sessions| == 1 && !p.sessions[0].overrun && p.sessions[0].clientCommand.lost == 1
  {
    hide Recognised, WritePacket, ServerCommand, NewSession;
    OneByteLost();
    var open, read := NewClient(1, 2), ReadEvent(2, Bytes("x"), Answers(None, Net(None, None)));
    var write := WriteEvent(1, [Failed]);
    var p1 := Do(Start(0), open);
    assert Find(p1.sessions, 2) == 0;
    var p2 := Do(p1, read);
    assert p2.sessions == [ServerCommand(NewSession(1, 2), "x")] && Find(p2.sessions, 1) == 0;
    OneMore(Start(0), [], open);
    OneMore(Start(0), [open], read);
    OneMore(Start(0), [open, read], write);
    run := [open, read, write];
    assert [] + [open] == [open] && [open] + [read] == [open, read] && [open, read] + [write] == run;
  }

  lemma OneByteLost()
    ensures var s := NewSession(1, 2);
            s.serverCommand.fd == 2 && InSession(s, 2) && !Is(s.serverData, 2) && InSession(ServerCommand(s, "x"), 1)
    ensures var t := WritePacket(ServerCommand(NewSession(1, 2), "x"), 1, [Failed]);
            !t.overrun && t.clientCommand.lost == 1
  {
    FlushLossExactly(ServerCommand(NewSession(1, 2), "x").clientCommand, [Failed]);
  }
}
