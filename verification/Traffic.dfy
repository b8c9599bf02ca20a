/** The relay seen from outside: what a run's events read, against what its sessions deliver. */
module Traffic {
  import opened Options
  import opened Text
  import opened PortSpec
  import opened PortTheorems
  import opened SessionModel
  import opened Relay
  import opened Rewriting
  import opened Streams

  // What the session whose server socket is `fd` was sent, by the events alone: all
  // bytes read from `fd` since it was last connected to a server.
  function FromServer(run: seq<Event>, fd: int): string {
    if run == [] then ""
    else
      var before, e := FromServer(run[..|run| - 1], fd), run[|run| - 1];
      if e.NewClient? && e.serverFd == fd then ""
      else if e.ReadEvent? && e.fd == fd && e.input.Bytes? then before + e.input.chunk
      else before
  }

  // What was forwarded to the server for the chunks read from the client on `fd` since it
  // connected: a chunk recognised as a PORT command as a whole becomes one PORT line.
  function FromClient(run: seq<Event>, fd: int): string
    requires forall i :: 0 <= i < |run| && run[i].ReadEvent? ==> GoodNet(run[i].answers.net)
  {
    if run == [] then ""
    else
      var before, e := FromClient(run[..|run| - 1], fd), run[|run| - 1];
      if e.NewClient? && e.clientFd == fd then ""
      else if e.ReadEvent? && e.fd == fd && e.input.Bytes? then before + Forwarded(e.input.chunk, e.answers.net)
      else before
  }

  // What was read from the client on `fd` since it connected, with the kernel's answers.
  function ReadsFrom(run: seq<Event>, fd: int): seq<Read> {
    if run == [] then []
    else
      var before, e := ReadsFrom(run[..|run| - 1], fd), run[|run| - 1];
      if e.NewClient? && e.clientFd == fd then []
      else if e.ReadEvent? && e.fd == fd && e.input.Bytes? then before + [Read(e.input.chunk, e.answers.net)]
      else before
  }

  // The addresses that were dialled for it: the endpoints parsed from its commands.
  function Dials(run: seq<Event>, fd: int): seq<Endpoint> {
    if run == [] then []
    else
      var before, e := Dials(run[..|run| - 1], fd), run[|run| - 1];
      if e.NewClient? && e.clientFd == fd then []
      else if e.ReadEvent? && e.fd == fd && e.input.Bytes? then before + DialsFor(e.input.chunk, e.answers.net)
      else before
  }

  function DialsFor(chunk: string, net: Net): seq<Endpoint> {
    if Recognised(chunk, |chunk|) && !Overreads(chunk) && Parsed(Argument(chunk)).Some? && net.dial.Some?
    then [Parsed(Argument(chunk)).value] else []
  }

  // The bytes of the client on `fd`: what it said, how much of that made way for the
  // proxy's own lines, how much those brought in, and how much was dropped behind them.
  datatype Ledger = Ledger(said: string, replaced: nat, inserted: nat, dropped: nat)

  function Entered(l: Ledger, chunk: string, net: Net): Ledger
    requires GoodNet(net)
  {
    var l' := l.(said := l.said + chunk);
    if !Recognised(chunk, |chunk|) || net.listen.None? then l'
    else
      var n := Dropped(chunk, net);
      l'.(replaced := l.replaced + |chunk| - n,
          inserted := l.inserted + |Forwarded(chunk, net)|,
          dropped := l.dropped + n)
  }

  function ClientLedger(run: seq<Event>, fd: int): Ledger
    requires forall i :: 0 <= i < |run| && run[i].ReadEvent? ==> GoodNet(run[i].answers.net)
  {
    if run == [] then Ledger("", 0, 0, 0)
    else
      var before, e := ClientLedger(run[..|run| - 1], fd), run[|run| - 1];
      if e.NewClient? && e.clientFd == fd then Ledger("", 0, 0, 0)
      else if e.ReadEvent? && e.fd == fd && e.input.Bytes? then Entered(before, e.input.chunk, e.answers.net)
      else before
  }

  lemma {:induction false} LedgerBalances(run: seq<Event>, fd: int)
    requires forall i :: 0 <= i < |run| && run[i].ReadEvent? ==> GoodNet(run[i].answers.net)
    ensures var l := ClientLedger(run, fd); |FromClient(run, fd)| + l.replaced + l.dropped == |l.said| + l.inserted
  {
    hide Recognised, PortLine, Dropped;
    if run != [] { LedgerBalances(run[..|run| - 1], fd); }
  }

  lemma {:induction false} ReadsAreForwarded(run: seq<Event>, fd: int)
    requires forall i :: 0 <= i < |run| && run[i].ReadEvent? ==> GoodNet(run[i].answers.net)
    ensures GoodReads(ReadsFrom(run, fd)) && FromClient(run, fd) == Forwards(ReadsFrom(run, fd))
    ensures ClientLedger(run, fd).said == Said(Chunks(ReadsFrom(run, fd)))
  {
    hide Forwarded, Dropped, Recognised;
    if run != [] {
      var init, e := run[..|run| - 1], run[|run| - 1];
      ReadsAreForwarded(init, fd);
      if !(e.NewClient? && e.clientFd == fd) && e.ReadEvent? && e.fd == fd && e.input.Bytes? {
        var before := ReadsFrom(init, fd);
        var after := before + [Read(e.input.chunk, e.answers.net)];
        assert after[..|after| - 1] == before;
        assert Chunks(after)[..|after| - 1] == Chunks(before) && Chunks(after)[|after| - 1] == e.input.chunk;
      }
    }
  }

  /** Over any run in which the reads from a client are steady and its PORT commands
      answered, what is forwarded is all that the client said with its PORT lines rewritten,
      each to the name of the socket that listens for it. */
  lemma StreamIsRewritten(run: seq<Event>, fd: int)
    requires forall i :: 0 <= i < |run| && run[i].ReadEvent? ==> GoodNet(run[i].answers.net)
    requires var rs := ReadsFrom(run, fd); GoodReads(rs) && NoneEmpty(Chunks(rs)) && Steady(Chunks(rs)) && Answered(rs)
    ensures |Names(ReadsFrom(run, fd))| == PortLines(ClientLedger(run, fd).said)
    ensures FromClient(run, fd) == Rewritten(ClientLedger(run, fd).said, Names(ReadsFrom(run, fd)))
  {
    ReadsAreForwarded(run, fd);
    SteadyReadsForward(ReadsFrom(run, fd));
  }

  lemma {:induction false} NoReadIsEmpty(run: seq<Event>, fd: int)
    requires forall i :: 0 <= i < |run| && run[i].ReadEvent? && run[i].input.Bytes? ==> run[i].input.chunk != ""
    ensures NoneEmpty(Chunks(ReadsFrom(run, fd)))
  {
    if run != [] {
      var init, e := run[..|run| - 1], run[|run| - 1];
      NoReadIsEmpty(init, fd);
      assert e.ReadEvent? && e.input.Bytes? ==> e.input.chunk != "";
      var before, after := ReadsFrom(init, fd), ReadsFrom(run, fd);
      forall i | 0 <= i < |after| ensures Chunks(after)[i] != "" {
        if i < |before| && after != [] { assert Chunks(before)[i] == before[i].chunk; }
      }
    }
  }

  // The data channel of the client on `fd`, by the events alone: the descriptors it
  // runs over, and what was read from accepted connections since the last dialling.
  datatype Channel = Channel(data: Option<int>, listening: Option<int>, connection: Option<int>, heard: string)

  // A command of the client: a PORT line opens a socket to the client, and another to
  // listen for the server.
  function Commanded(c: Channel, chunk: string, net: Net): Channel {
    if !Recognised(chunk, |chunk|) then c
    else
      var dials := !Overreads(chunk) && Parsed(Argument(chunk)).Some? && net.dial.Some?;
      var d := if dials then c.(data := net.dial, heard := "") else c;
      if net.listen.Some? then d.(listening := Some(net.listen.value.fd)) else d
  }

  function Advance(c: Channel, fd: int, e: Event): Channel {
    match e
    case NewClient(clientFd, _) => if clientFd == fd then Channel(None, None, None, "") else c
    case WriteEvent(_, _) => c
    case ReadEvent(f, input, answers) =>
      if c.listening == Some(f) then (if answers.accepted.Some? then c.(connection := answers.accepted) else c)
      else if c.connection == Some(f) then
        (if input.Closed? then c.(connection := None)
         else if input.Bytes? && c.data.Some? then c.(heard := c.heard + input.chunk) else c)
      else if !input.Bytes? then c
      else if f == fd then Commanded(c, input.chunk, answers.net)
      else if c.data == Some(f) && Recognised(input.chunk, |input.chunk|) && answers.net.listen.Some? then
        c.(listening := Some(answers.net.listen.value.fd))
      else c
  }

  function DataChannel(run: seq<Event>, fd: int): Channel {
    if run == [] then Channel(None, None, None, "")
    else Advance(DataChannel(run[..|run| - 1], fd), fd, run[|run| - 1])
  }

  // What the client on `fd` is sent on its data channel.
  function FromConnection(run: seq<Event>, fd: int): string {
    DataChannel(run, fd).heard
  }

  function Descriptor(s: Option<Sock>): Option<int> {
    if s.Some? then Some(s.value.fd) else None
  }

  function ChannelOf(s: Session): Channel {
    Channel(Descriptor(s.clientData), Descriptor(s.serverData), Descriptor(s.serverConnection), s.fromConnection)
  }

  // One readable descriptor: what is read goes to the history of its channel only.
  lemma ReadableHears(s: Session, fd: int, input: Input, answers: Answers)
    requires RolesDiffer(s) && GoodNet(answers.net) && Readable(s, fd, input, answers).Some?
    ensures var t := Readable(s, fd, input, answers).value;
            t.serverCommand.fd == s.serverCommand.fd && t.clientCommand.fd == s.clientCommand.fd &&
            t.fromServer == (if input.Bytes? && fd == s.serverCommand.fd
                             then s.fromServer + input.chunk else s.fromServer) &&
            t.toServer == (if input.Bytes? && fd == s.clientCommand.fd
                           then s.toServer + Forwarded(input.chunk, answers.net) else s.toServer) &&
            t.dialled == s.dialled +
              (if input.Bytes? && fd == s.clientCommand.fd then DialsFor(input.chunk, answers.net) else []) &&
            ChannelOf(t) == Advance(ChannelOf(s), s.clientCommand.fd, ReadEvent(fd, input, answers))
  {
    hide Forwarded, Recognised, Commanded, ClientCommand, SendData, Overreads, DialsFor;
    if input.Bytes? && !Is(s.serverData, fd) && !Is(s.serverConnection, fd) {
      if fd == s.clientCommand.fd {
        CommandHears(s, input.chunk, answers.net);
      } else if Is(s.clientData, fd) {
        DataHears(s, input.chunk, answers.net);
      }
    }
  }

  lemma CommandHears(s: Session, chunk: string, net: Net)
    requires GoodNet(net) && ClientCommand(s, chunk, net).Some?
    ensures var t := ClientCommand(s, chunk, net).value;
            t.serverCommand.fd == s.serverCommand.fd && t.clientCommand.fd == s.clientCommand.fd &&
            t.fromServer == s.fromServer && t.toServer == s.toServer + Forwarded(chunk, net) &&
            t.dialled == s.dialled + DialsFor(chunk, net) &&
            ChannelOf(t) == Commanded(ChannelOf(s), chunk, net)
  {
    hide Forwarded, Recognised, Overreads, Parsed, Argument;
  }

  lemma DataHears(s: Session, chunk: string, net: Net)
    requires GoodNet(net) && s.clientData.Some?
    ensures var t := SendData(s, chunk, net);
            t.serverCommand == s.serverCommand && t.clientCommand == s.clientCommand &&
            t.fromServer == s.fromServer && t.toServer == s.toServer && t.dialled == s.dialled &&
            ChannelOf(t) ==
              if Recognised(chunk, |chunk|) && net.listen.Some?
              then ChannelOf(s).(listening := Some(net.listen.value.fd)) else ChannelOf(s)
  {
    hide Forwarded, Recognised;
  }

  // Where session k of the next state comes from.
  lemma Origin(p: Proxy, e: Event, k: nat) returns (j: nat)
    requires RegistryInv(p) && Allowed(p, e) && k < |Do(p, e).sessions| && !(e.NewClient? && k == 0)
    ensures j < |p.sessions|
    ensures var s, t := p.sessions[j], Do(p, e).sessions[k];
            if e.NewClient? || e.fd !in Owned(s) then t == s
            else if e.ReadEvent? then Readable(s, e.fd, e.input, e.answers) == Some(t)
            else t == WritePacket(s, e.fd, e.script)
  {
    hide Readable, WritePacket, RolesDiffer;
    var t := Do(p, e);
    if e.NewClient? {
      j := k - 1;
    } else {
      var i := Find(p.sessions, e.fd);
      j := if |t.sessions| < |p.sessions| && k >= i then k + 1 else k;
      var s := p.sessions[j];
      assert Registered(s, p.open, p.listener);
      InSessionMeansOwned(s, e.fd);
      if i < |p.sessions| {
        InSessionMeansOwned(p.sessions[i], e.fd);
        if i != j { assert Owned(p.sessions[if i < j then i else j]) !! Owned(p.sessions[if i < j then j else i]); }
      }
    }
  }

  lemma Last(p: Proxy, run: seq<Event>)
    requires Valid(p, run) && run != []
    ensures var init, e := run[..|run| - 1], run[|run| - 1];
            Valid(p, init) && Allowed(After(p, init), e) && After(p, run) == Do(After(p, init), e)
    decreases |run|
  {
    if |run| > 1 {
      Last(Do(p, run[0]), run[1..]);
      assert run[1..][..|run| - 2] == run[..|run| - 1][1..];
    }
  }

  lemma GoodNets(p: Proxy, run: seq<Event>)
    requires Valid(p, run)
    ensures forall i :: 0 <= i < |run| && run[i].ReadEvent? ==> GoodNet(run[i].answers.net)
    ensures forall i :: 0 <= i < |run| && run[i].ReadEvent? && run[i].input.Bytes? ==> run[i].input.chunk != ""
    decreases |run|
  {
    if run != [] {
      GoodNets(Do(p, run[0]), run[1..]);
      assert forall i :: 0 < i < |run| ==> run[i] == run[1..][i - 1];
    }
  }

  /** The histories are what the events say: for each session of each run, `fromServer`
      is what was read from its server's descriptor since it was connected, `toServer`
      what was forwarded for the reads from its client's, `dialled` the endpoints parsed
      from them, and the descriptors and the history of its data channel are those of the
      tracker. */
  lemma {:induction false} HistoriesAreTraffic(listener: nat, run: seq<Event>, k: nat)
    requires Valid(Start(listener), run)
    requires k < |After(Start(listener), run).sessions|
    ensures forall i :: 0 <= i < |run| && run[i].ReadEvent? ==> GoodNet(run[i].answers.net)
    ensures var s := After(Start(listener), run).sessions[k];
            s.fromServer == FromServer(run, s.serverCommand.fd) && s.toServer == FromClient(run, s.clientCommand.fd) &&
            s.dialled == Dials(run, s.clientCommand.fd) &&
            ChannelOf(s) == DataChannel(run, s.clientCommand.fd)
    decreases |run|
  {
    var start := Start(listener);
    GoodNets(start, run);
    if run != [] {
      var init, e := run[..|run| - 1], run[|run| - 1];
      Last(start, run);
      RunKeepsInv(start, init);
      var p := After(start, init);
      if !(e.NewClient? && k == 0) {
        var j := Origin(p, e, k);
        HistoriesAreTraffic(listener, init, j);
        StepIsTraffic(p, e, j, Do(p, e).sessions[k]);
      }
    }
  }

  lemma StepIsTraffic(p: Proxy, e: Event, j: nat, t: Session)
    requires RegistryInv(p) && Allowed(p, e) && j < |p.sessions|
    requires var s := p.sessions[j];
             if e.NewClient? || e.fd !in Owned(s) then t == s
             else if e.ReadEvent? then Readable(s, e.fd, e.input, e.answers) == Some(t)
             else t == WritePacket(s, e.fd, e.script)
    ensures var s := p.sessions[j];
            t.serverCommand.fd == s.serverCommand.fd && t.clientCommand.fd == s.clientCommand.fd &&
            (e.NewClient? ==> e.serverFd != s.serverCommand.fd && e.clientFd != s.clientCommand.fd) &&
            t.fromServer == (if e.ReadEvent? && e.fd == s.serverCommand.fd && e.input.Bytes?
                             then s.fromServer + e.input.chunk else s.fromServer) &&
            t.toServer == (if e.ReadEvent? && e.fd == s.clientCommand.fd && e.input.Bytes?
                           then s.toServer + Forwarded(e.input.chunk, e.answers.net) else s.toServer) &&
            t.dialled == s.dialled + (if e.ReadEvent? && e.fd == s.clientCommand.fd && e.input.Bytes?
                                      then DialsFor(e.input.chunk, e.answers.net) else []) &&
            ChannelOf(t) == Advance(ChannelOf(s), s.clientCommand.fd, e)
  {
    hide Readable, Forwarded, WritePacket, Advance, ChannelOf, RolesDiffer, DialsFor;
    var s := p.sessions[j];
    assert Registered(s, p.open, p.listener);
    assert {s.serverCommand.fd, s.clientCommand.fd} <= Owned(s);
    if e.NewClient? || e.fd !in Owned(s) {
      OthersDoNotHear(s, e);
    } else if e.ReadEvent? {
      ReadableHears(s, e.fd, e.input, e.answers);
    } else {
      WritingIsNotHeard(s, e);
    }
  }

  lemma OthersDoNotHear(s: Session, e: Event)
    requires if e.NewClient? then e.clientFd != s.clientCommand.fd else e.fd !in Owned(s)
    ensures Advance(ChannelOf(s), s.clientCommand.fd, e) == ChannelOf(s)
  {
    hide Recognised, Commanded;
  }

  lemma WritingIsNotHeard(s: Session, e: Event)
    requires e.WriteEvent?
    ensures var t := WritePacket(s, e.fd, e.script);
            t.serverCommand.fd == s.serverCommand.fd && t.clientCommand.fd == s.clientCommand.fd &&
            t.fromServer == s.fromServer && t.toServer == s.toServer && t.dialled == s.dialled &&
            ChannelOf(t) == Advance(ChannelOf(s), s.clientCommand.fd, e)
  {
  }

  /** End to end: in every run, for a session whose appends stayed in their buffers, the
      client has been sent, or has pending, what the server sent since it was connected,
      and the client's data socket, what came over accepted connections since it was
      dialled; in order, and complete exactly when no flush lost anything. The server has
      been sent what was forwarded for the reads from the client: if these were steady, all
      that the client said with its PORT lines rewritten (RewritesAtEveryRead has the
      converse); and in any case the ledger counts the bytes that were dropped beside those
      that a flush lost. */
  lemma EndToEnd(listener: nat, run: seq<Event>, k: nat)
    requires Valid(Start(listener), run)
    requires k < |After(Start(listener), run).sessions|
    requires !After(Start(listener), run).sessions[k].overrun
    ensures forall i :: 0 <= i < |run| && run[i].ReadEvent? ==> GoodNet(run[i].answers.net)
    ensures var s := After(Start(listener), run).sessions[k];
            Delivers(s.clientCommand, FromServer(run, s.serverCommand.fd)) &&
            Delivers(s.serverCommand, FromClient(run, s.clientCommand.fd)) &&
            Descriptor(s.clientData) == DataChannel(run, s.clientCommand.fd).data &&
            (s.clientData.Some? ==> Delivers(s.clientData.value, FromConnection(run, s.clientCommand.fd)))
    ensures var s := After(Start(listener), run).sessions[k]; var c := s.serverCommand;
            var rs, said := ReadsFrom(run, s.clientCommand.fd), ClientLedger(run, s.clientCommand.fd).said;
            said == Said(Chunks(rs)) && GoodReads(rs) && NoneEmpty(Chunks(rs)) &&
            (Steady(Chunks(rs)) && Answered(rs) ==>
               |Names(rs)| == PortLines(said) && Delivers(c, Rewritten(said, Names(rs))))
    ensures var s := After(Start(listener), run).sessions[k];
            var c, l := s.serverCommand, ClientLedger(run, s.clientCommand.fd);
            |c.written| + |c.pending| + c.lost + l.replaced + l.dropped == |l.said| + l.inserted
  {
    HistoriesAreTraffic(listener, run, k);
    var p := After(Start(listener), run);
    StreamRelay(p, k);
    var fd := p.sessions[k].clientCommand.fd;
    LedgerBalances(run, fd);
    ReadsAreForwarded(run, fd);
    GoodNets(Start(listener), run);
    NoReadIsEmpty(run, fd);
    var rs := ReadsFrom(run, fd);
    if Steady(Chunks(rs)) && Answered(rs) { StreamIsRewritten(run, fd); }
  }

  // What a socket was sent and has pending is `text`, in order, exactly when nothing was
  // lost; and the loss is the exact difference.
  predicate Delivers(c: Sock, text: string) {
    |c.written| + |c.pending| + c.lost == |text| && (c.written + c.pending == text <==> c.lost == 0)
  }

  // ---- What happens to chunks of another shape ----

  function FirstRead(chunk: string, net: Net): seq<Event> {
    [NewClient(1, 2), ReadEvent(1, Bytes(chunk), Answers(None, net))]
  }

  /** A command in the same chunk as a PORT line vanishes, with no overrun and no loss: the
      server is sent the proxy's line alone. */
  lemma CommandVanishes(e: Endpoint, own: Endpoint, rest: string) returns (run: seq<Event>)
    requires GoodName(e) && GoodName(own) && |PortLine(e)| + |rest| < COMMAND_BUFFER_SIZE
    ensures run == FirstRead(PortLine(e) + rest, Net(Some(4), Some(Listening(3, Some(own)))))
    ensures Valid(Start(0), run) && GoodNet(run[1].answers.net)
    ensures var p := After(Start(0), run);
            |p.sessions| == 1 && !p.sessions[0].overrun && p.sessions[0].serverCommand.lost == 0 &&
            p.sessions[0].serverCommand.pending == PortLine(own) && ClientLedger(run, 1).dropped == Solid(rest)
  {
    hide Recognised, PortLine, Dropped, Solid, Overreads, Parsed, Argument;
    var net := Net(Some(4), Some(Listening(3, Some(own))));
    var chunk := PortLine(e) + rest;
    run := FirstRead(chunk, net);
    PrintedLineAndRest(e, rest, net);
    var p1 := Do(Start(0), run[0]);
    var s := p1.sessions[0];
    assert Find(p1.sessions, 1) == 0;
    OwnLineIsSent(s, chunk, net);
    if Parsed(Argument(chunk)).Some? { OwnLineIsSent(Dialled(s, 4, Parsed(Argument(chunk)).value), chunk, net); }
    OneMore(Start(0), [], run[0]);
    OneMore(Start(0), [run[0]], run[1]);
    assert [] + [run[0]] == [run[0]] && [run[0]] + [run[1]] == run;
    assert run[..1] == [run[0]] && run[..1][..0] == [];
    assert "" + PortLine(own) == PortLine(own);
  }

  lemma {:induction false} OneMore(p: Proxy, run: seq<Event>, e: Event)
    requires Valid(p, run) && Allowed(After(p, run), e)
    ensures Valid(p, run + [e]) && After(p, run + [e]) == Do(After(p, run), e)
    decreases |run|
  {
    hide Do;
    if run == [] {
      assert run + [e] == [e] && [e][1..] == [];
    } else {
      OneMore(Do(p, run[0]), run[1..], e);
      assert (run + [e])[1..] == run[1..] + [e];
    }
  }

  lemma PrintedLineAndRest(e: Endpoint, rest: string, net: Net)
    requires GoodName(e) && GoodNet(net) && net.listen.Some? && net.listen.value.name.Some?
    requires |PortLine(e)| + |rest| < COMMAND_BUFFER_SIZE
    ensures var chunk := PortLine(e) + rest;
            |chunk| >= 5 && Recognised(chunk, |chunk|) && !Overreads(chunk) && Received(chunk) &&
            Dropped(chunk, net) == Solid(rest)
  {
    hide Recognised, PortLine, Dropped;
    var v := PortSpec.Bytes(e.address) + [e.port / 256, e.port % 256];
    var body := Join(PrintedFields(e), ',');
    PrintedWellFormed(e);
    assert WellFormed(PrintedFields(e), v, "");
    WellFormedIsRecognised(PrintedFields(e), v, "");
    BodyOfLine(PrintedFields(e), v, "");
    var line := "PORT " + body;
    assert line + "" == line && line[5..] == body && PortLine(e) == line + "\n";
    assert PortLine(e) + rest == line + ("\n" + rest) && ("\n" + rest)[1..] == rest;
    RestVanishes(line, "\n" + rest, net);
  }

  /** A PORT line that comes in two reads, cut in front of its last field, reaches the
      server unchanged: it is told the client's own address, and nothing is dialled. */
  lemma CutLineReachesTheServer(fields: seq<string>, v: seq<nat>, eol: string, k: nat, net: Net)
    returns (run: seq<Event>)
    requires WellFormed(fields, v, eol) && 0 < k <= 5 + |Join(fields, ',')|
    requires var line := "PORT " + Join(fields, ',') + eol;
             k < |line| < COMMAND_BUFFER_SIZE && CountIn(line[..k], {',', '.'}) != 5
    requires GoodNet(net) && net.listen.Some? && net.listen.value.name.Some? && net.listen.value.fd > 2
    requires net.dial.Some? ==> net.dial.value > 2 && net.dial.value != net.listen.value.fd
    ensures var line := "PORT " + Join(fields, ',') + eol;
            run == FirstRead(line[..k], net) + [ReadEvent(1, Bytes(line[k..]), Answers(None, net))] &&
            Valid(Start(0), run) &&
            var p := After(Start(0), run);
            |p.sessions| == 1 && p.sessions[0].serverCommand.pending == line && p.sessions[0].dialled == []
  {
    hide Recognised, Join, WellFormed, CountIn, ClientCommand, PortLine;
    SixFields(fields, v, eol);
    var line := "PORT " + Join(fields, ',') + eol;
    CutLine(fields, v, eol, k, net);
    var first, second := line[..k], line[k..];
    var open := NewClient(1, 2);
    var read, again := ReadEvent(1, Bytes(first), Answers(None, net)), ReadEvent(1, Bytes(second), Answers(None, net));
    var p1 := Do(Start(0), open);
    var p2 := Do(p1, read);
    assert Find(p1.sessions, 1) == 0;
    OtherChunksPass(p1.sessions[0], first, net);
    assert Find(p2.sessions, 1) == 0;
    OtherChunksPass(p2.sessions[0], second, net);
    OneMore(Start(0), [], open);
    OneMore(Start(0), [open], read);
    OneMore(Start(0), [open, read], again);
    run := [open, read, again];
    assert [] + [open] == [open] && [open] + [read] == [open, read] && [open, read] + [again] == run;
    assert first + second == line && "" + first == first;
  }
}
