/** What the rewriting of PORT commands does to chunks that are not one line. A chunk is
    what one read brings: any number of lines, or a part of one. */
module Rewriting {
  import opened Options
  import opened Text
  import opened PortSpec
  import opened PortTheorems
  import opened SessionModel

  // ---- Lines ----

  function Line(text: string): (line: string)
    ensures line <= text
  {
    Until(text, EOL)
  }

  // The line ends that `text` begins with.
  function Ends(text: string): (ends: string)
    ensures ends <= text && Eol(ends)
    ensures ends == text || text[|ends|] !in EOL
  {
    if text == "" || text[0] !in EOL then "" else [text[0]] + Ends(text[1..])
  }

  // What follows the first line and its ends.
  function Rest(text: string): (rest: string)
    ensures |rest| <= |text| && rest == text[|text| - |rest|..]
    ensures text != "" ==> |rest| < |text|
  {
    var line := Line(text);
    text[|line| + |Ends(text[|line|..])|..]
  }

  predicate GoodName(e: Endpoint) {
    e.address < 0x1_0000_0000 && e.port < 0x1_0000
  }

  predicate IsPortLine(line: string) {
    Recognised(line, |line|)
  }

  // The rewriting line by line: each PORT command becomes the proxy's own.
  function ByLines(text: string, name: Endpoint): string
    requires GoodName(name)
    decreases |text|
  {
    if text == "" then ""
    else
      var rest := Rest(text);
      (if IsPortLine(Line(text)) then PortLine(name) else text[..|text| - |rest|]) + ByLines(rest, name)
  }

  function PortLines(text: string): nat
    decreases |text|
  {
    if text == "" then 0 else (if IsPortLine(Line(text)) then 1 else 0) + PortLines(Rest(text))
  }

  // A longer name makes a longer text, if there is a line to put it in.
  lemma {:induction false} LongerName(text: string, a: Endpoint, b: Endpoint)
    requires GoodName(a) && GoodName(b) && |PortLine(a)| < |PortLine(b)|
    ensures |ByLines(text, a)| <= |ByLines(text, b)|
    ensures PortLines(text) > 0 ==> |ByLines(text, a)| < |ByLines(text, b)|
    decreases |text|
  {
    hide PortLine, IsPortLine, Line, Rest;
    if text != "" { LongerName(Rest(text), a, b); }
  }

  lemma {:induction false} NothingToRewrite(text: string, name: Endpoint)
    requires GoodName(name) && PortLines(text) == 0
    ensures ByLines(text, name) == text
    decreases |text|
  {
    hide PortLine, IsPortLine, Line, Rest;
    if text != "" {
      NothingToRewrite(Rest(text), name);
      assert text[..|text| - |Rest(text)|] + text[|text| - |Rest(text)|..] == text;
    }
  }

  // ---- The recogniser reads the first line ----

  lemma {:induction false} UntilFirst(text: string, few: set<char>, more: set<char>)
    requires few <= more
    ensures Until(Until(text, few), more) == Until(text, more)
  {
    if text != "" && text[0] !in few { UntilFirst(text[1..], few, more); }
  }

  lemma {:induction false} UntilBehind(a: string, b: string, stop: set<char>)
    requires Free(a, stop)
    ensures Until(a + b, stop) == a + Until(b, stop)
  {
    if a == "" {
      assert a + b == b;
    } else {
      assert (a + b)[1..] == a[1..] + b;
      UntilBehind(a[1..], b, stop);
    }
  }

  lemma PortPrefix(chunk: string)
    requires |chunk| >= 5 && chunk[..4] == "PORT" && chunk[4] !in EOL
    ensures Line(chunk) == chunk[..5] + Until(chunk[5..], EOL)
  {
    assert forall i :: 0 <= i < 4 ==> chunk[i] == chunk[..4][i];
    UntilBehind(chunk[..5], chunk[5..], EOL);
    assert chunk[..5] + chunk[5..] == chunk;
  }

  lemma FirstLineDecides(chunk: string)
    requires |chunk| >= 5 ==> chunk[..4] == "PORT" ==> chunk[4] !in EOL
    ensures IsPortLine(Line(chunk)) <==> Recognised(chunk, |chunk|)
  {
    var line := Line(chunk);
    if |chunk| >= 5 && chunk[..4] == "PORT" {
      PortPrefix(chunk);
      UntilFirst(chunk[5..], EOL, LINE_END);
      assert line[5..|line|] == Until(chunk[5..], EOL) && chunk[5..|chunk|] == chunk[5..] && line[..4] == chunk[..4];
    } else if |line| >= 5 {
      assert line[..4] == chunk[..4];
    }
  }

  // `PORT` and a line end: the recogniser skips its fifth character, whatever it is.
  lemma EndBehindPort(chunk: string)
    requires |chunk| >= 5 && chunk[..4] == "PORT" && chunk[4] in EOL
    ensures Line(chunk) == "PORT" && !IsPortLine(Line(chunk))
    ensures Recognised(chunk, |chunk|) ==> Rest(chunk) != ""
  {
    assert forall i :: 0 <= i < 4 ==> chunk[i] == chunk[..4][i];
    UntilAt(chunk[..4], chunk[4..], EOL);
    assert chunk[..4] + chunk[4..] == chunk;
    if Rest(chunk) == "" {
      assert Ends(chunk[4..]) == chunk[4..];
      assert chunk[5..|chunk|] == chunk[4..][1..];
      assert Until(chunk[5..|chunk|], LINE_END) == "";
    }
  }

  // ---- What is forwarded ----

  function Named(name: Endpoint): (net: Net)
    requires GoodName(name)
    ensures GoodNet(net)
  {
    Net(None, Some(Listening(0, Some(name))))
  }

  // Not recognised, and no line a PORT command; or recognised, and one line.
  predicate WholeLines(chunk: string) {
    if Recognised(chunk, |chunk|) then Rest(chunk) == "" else PortLines(chunk) == 0
  }

  lemma RecognisedByLines(chunk: string, name: Endpoint)
    requires Recognised(chunk, |chunk|) && GoodName(name)
    ensures ByLines(chunk, name) == PortLine(name) <==> Rest(chunk) == ""
  {
    hide PortLine, Recognised, IsPortLine, Line, Rest;
    assert |chunk| >= 5 && chunk[..4] == "PORT" by { Begins(chunk); }
    LineBegins(name);
    if chunk[4] in EOL {
      EndBehindPort(chunk);
      KeptPrefix(chunk, name);
    } else {
      FirstLineDecides(chunk);
      if Rest(chunk) == "" {
        assert PortLine(name) + "" == PortLine(name);
      } else {
        SomethingKept(Rest(chunk), name);
      }
    }
  }

  lemma Begins(chunk: string)
    requires Recognised(chunk, |chunk|)
    ensures |chunk| >= 5 && chunk[..4] == "PORT"
  {
  }

  lemma LineBegins(name: Endpoint)
    requires GoodName(name)
    ensures |PortLine(name)| > 5 && PortLine(name)[4] == ' '
  {
    RoundTrip(name);
  }

  // A first line that is kept begins the rewritten text.
  lemma KeptPrefix(chunk: string, name: Endpoint)
    requires GoodName(name) && |chunk| >= 5 && Line(chunk) == "PORT" && chunk[4] in EOL && !IsPortLine(Line(chunk))
    ensures |ByLines(chunk, name)| > 4 && ByLines(chunk, name)[4] == chunk[4]
  {
    hide PortLine, IsPortLine;
    assert chunk[4..][0] in EOL;
    assert |Rest(chunk)| < |chunk| - 4;
  }

  lemma SomethingKept(text: string, name: Endpoint)
    requires text != "" && GoodName(name)
    ensures ByLines(text, name) != ""
  {
    hide IsPortLine, PortLine;
    LineBegins(name);
  }

  lemma TwoNames() returns (a: Endpoint, b: Endpoint)
    ensures GoodName(a) && GoodName(b) && |PortLine(a)| < |PortLine(b)|
  {
    hide PortLine;
    a, b := Endpoint(0, 0), Endpoint(0, 10);
    assert Decimal(0) == "0" && Decimal(10) == "10";
    LineLength(a);
    LineLength(b);
  }

  lemma LineLength(e: Endpoint)
    requires GoodName(e)
    ensures |PortLine(e)| == 8 + |InetNtoa(e.address)| + |Decimal(e.port / 256)| + |Decimal(e.port % 256)|
  {
    hide InetNtoa, Decimal;
  }

  /** What is forwarded for a chunk is its rewriting line by line, whatever the name of
      the listening socket, exactly for chunks of whole lines: none of them a PORT command,
      or only one line, which is. */
  lemma RewritesExactly(chunk: string)
    ensures (forall name :: GoodName(name) ==> Forwarded(chunk, Named(name)) == ByLines(chunk, name))
            <==> WholeLines(chunk)
  {
    hide PortLine, Recognised, IsPortLine, ByLines, PortLines, Rest;
    if Recognised(chunk, |chunk|) {
      forall name | GoodName(name)
        ensures Forwarded(chunk, Named(name)) == ByLines(chunk, name) <==> Rest(chunk) == ""
      {
        RecognisedByLines(chunk, name);
      }
      assert GoodName(Endpoint(0, 0));
    } else if PortLines(chunk) == 0 {
      forall name | GoodName(name) ensures ByLines(chunk, name) == chunk { NothingToRewrite(chunk, name); }
    } else {
      var a, b := TwoNames();
      LongerName(chunk, a, b);
      assert Forwarded(chunk, Named(a)) == Forwarded(chunk, Named(b)) == chunk;
    }
  }

  // ---- What is dropped ----

  // What a chunk holds behind the end of its first line.
  function Tail(chunk: string): string
    requires |chunk| >= 5
  {
    chunk[5 + |Until(chunk[5..], LINE_END)|..]
  }

  // Characters other than line ends.
  function Solid(text: string): (n: nat)
    ensures n <= |text|
  {
    if text == "" then 0 else (if text[0] in EOL then 0 else 1) + Solid(text[1..])
  }

  lemma EolFirst(text: string)
    requires text != ""
    ensures Eol(text) <==> text[0] in EOL && Eol(text[1..])
  {
    assert forall i :: 0 < i < |text| ==> text[i] == text[1..][i - 1];
    assert forall i :: 0 <= i < |text| - 1 ==> text[1..][i] == text[i + 1];
  }

  lemma {:induction false} SolidZero(text: string)
    ensures Solid(text) == 0 <==> Eol(text)
  {
    if text != "" {
      SolidZero(text[1..]);
      EolFirst(text);
    }
  }

  // All of a text but its line ends.
  lemma {:induction false} SolidCounts(text: string)
    ensures Solid(text) + CountIn(text, {'\r', '\n'}) == |text|
  {
    if text != "" { SolidCounts(text[1..]); }
  }

  // How much of a chunk has no counterpart in what is forwarded for it.
  function Dropped(chunk: string, net: Net): (n: nat)
    ensures n <= |chunk|
  {
    if !Recognised(chunk, |chunk|) || net.listen.None? then 0
    else if net.listen.value.name.None? then Solid(chunk)
    else Solid(Tail(chunk))
  }

  /** Whatever stands behind the end of a PORT line in its chunk is dropped. */
  lemma RestVanishes(line: string, rest: string, net: Net)
    requires Recognised(line, |line|) && Free(line[5..], LINE_END) && (rest == "" || rest[0] in LINE_END)
    requires GoodNet(net) && net.listen.Some? && net.listen.value.name.Some?
    ensures var chunk := line + rest; Recognised(chunk, |chunk|)
    ensures Forwarded(line + rest, net) == Forwarded(line, net) == PortLine(net.listen.value.name.value)
    ensures |line| >= 5 && Tail(line + rest) == rest && Dropped(line + rest, net) == Solid(rest)
  {
    hide PortLine, Split;
    var chunk := line + rest;
    assert chunk[5..|chunk|] == chunk[5..] == line[5..] + rest && line[5..|line|] == line[5..];
    UntilAt(line[5..], rest, LINE_END);
    UntilAt(line[5..], "", LINE_END);
    assert line[5..] + "" == line[5..] && chunk[..4] == line[..4];
  }

  /** Without a name for the listening socket a recognised chunk is dropped as a whole. */
  lemma UnnamedVanishes(chunk: string, net: Net)
    requires Recognised(chunk, |chunk|) && GoodNet(net) && net.listen.Some? && net.listen.value.name.None?
    ensures Forwarded(chunk, net) == "" && Dropped(chunk, net) + CountIn(chunk, {'\r', '\n'}) == |chunk|
  {
    SolidCounts(chunk);
  }

  /** A recognised chunk with a named listening socket drops nothing but line ends exactly
      when only line ends follow its first line; and, without NULs, a chunk is of whole
      lines exactly when it drops nothing and hides no PORT command behind its first line. */
  lemma DropsExactly(chunk: string, net: Net)
    requires GoodNet(net) && net.listen.Some? && net.listen.value.name.Some?
    ensures Recognised(chunk, |chunk|) ==> |chunk| >= 5 && (Dropped(chunk, net) == 0 <==> Eol(Tail(chunk)))
    ensures NUL !in chunk ==>
              (WholeLines(chunk) <==>
               if Recognised(chunk, |chunk|) then Dropped(chunk, net) == 0 && chunk[4] !in EOL
               else PortLines(chunk) == 0)
  {
    hide IsPortLine, PortLines;
    if Recognised(chunk, |chunk|) {
      SolidZero(Tail(chunk));
      if chunk[4] in EOL {
        EndBehindPort(chunk);
      } else if NUL !in chunk {
        PortPrefix(chunk);
        SameUntil(chunk[5..]);
        assert chunk[|Line(chunk)|..] == Tail(chunk);
        EndsAll(Tail(chunk));
      }
    }
  }

  lemma {:induction false} SameUntil(text: string)
    requires NUL !in text
    ensures Until(text, LINE_END) == Until(text, EOL)
  {
    if text != "" {
      assert text[0] != NUL && forall c :: c in text[1..] ==> c in text;
      SameUntil(text[1..]);
    }
  }

  lemma {:induction false} EndsAll(text: string)
    ensures Ends(text) == text <==> Eol(text)
  {
    if text != "" {
      EndsAll(text[1..]);
      EolFirst(text);
    }
  }

  // ---- A PORT line in two reads ----

  lemma FieldWithoutP(fields: seq<string>, v: seq<nat>, eol: string, i: nat)
    requires WellFormed(fields, v, eol) && i < 6
    ensures Free(fields[i], {'P'})
  {
    var f := fields[i];
    forall k | 0 <= k < |f| ensures f[k] != 'P' {
      if i < 4 {
        if |f| > 2 && k >= 2 { assert f[k] == f[2..][k - 2]; }
      } else {
        assert DigitOf(f[k]) < 10;
      }
    }
  }

  lemma BodyOfLine(fields: seq<string>, v: seq<nat>, eol: string)
    requires WellFormed(fields, v, eol)
    ensures var body := Join(fields, ',');
            Free(body, {'P'}) && Free(body, {'.'}) && Free(body, LINE_END) && Split(body, {',', '.'}) == fields
  {
    hide WellFormed, Join, Split;
    SixFields(fields, v, eol);
    forall i | 0 <= i < 6
      ensures Free(fields[i], {'P'}) && Free(fields[i], {'.'})
      ensures Free(fields[i], LINE_END) && Free(fields[i], {',', '.'})
    {
      FieldWithoutP(fields, v, eol, i);
      WellFormedField(fields, v, eol, i);
    }
    JoinFree(fields, ',', {'P'});
    JoinFree(fields, ',', {'.'});
    JoinFree(fields, ',', LINE_END);
    SplitJoin(fields, ',', {',', '.'});
  }

  lemma SixFields(fields: seq<string>, v: seq<nat>, eol: string)
    requires WellFormed(fields, v, eol)
    ensures |fields| == 6 && Eol(eol)
  {
  }

  lemma {:induction false} NoneCounted(text: string, seps: set<char>)
    ensures CountIn(text, seps) == 0 <==> Free(text, seps)
  {
    if text != "" {
      NoneCounted(text[1..], seps);
      assert forall i :: 0 < i < |text| ==> text[i] == text[1..][i - 1];
      assert forall i :: 0 <= i < |text| - 1 ==> text[1..][i] == text[i + 1];
    }
  }

  // The beginning of a line has six fields as soon as it has the fifth comma.
  lemma BeginningOfLine(fields: seq<string>, v: seq<nat>, eol: string, j: nat)
    requires WellFormed(fields, v, eol) && j <= |Join(fields, ',')|
    ensures var body := Join(fields, ',');
            Recognised("PORT " + body[..j], 5 + j) <==> CountIn(body[..j], {',', '.'}) == 5
  {
    hide WellFormed, Join, HasHexDigit;
    SixFields(fields, v, eol);
    var body, seps := Join(fields, ','), {',', '.'};
    var part, rest, chunk := body[..j], body[j..], "PORT " + body[..j];
    BodyOfLine(fields, v, eol);
    assert body == part + rest && chunk[5..5 + j] == part && chunk[..4] == "PORT";
    UntilAt(part, "", LINE_END);
    assert part + "" == part;
    if CountIn(part, seps) == 5 {
      CountConcat(part, rest, seps);
      NoneCounted(rest, seps);
      SplitTail(part, rest, seps);
      forall i | 0 <= i < 5 ensures HasHexDigit(Split(part, seps)[i]) { WellFormedField(fields, v, eol, i); }
    }
  }

  /** A PORT line that comes in two reads is never rewritten as one: cut in front of its
      last field, it goes to the server as the client wrote it; cut in that field or at
      the line end, what follows the cut goes behind the proxy's own line. */
  lemma CutLine(fields: seq<string>, v: seq<nat>, eol: string, k: nat, net: Net)
    requires WellFormed(fields, v, eol) && 0 < k <= 5 + |Join(fields, ',')|
    requires GoodNet(net) && net.listen.Some? && net.listen.value.name.Some?
    ensures var line := "PORT " + Join(fields, ',') + eol;
            !Recognised(line[k..], |line| - k) &&
            (Recognised(line[..k], k) <==> CountIn(line[..k], {',', '.'}) == 5) &&
            Forwarded(line[..k], net) + Forwarded(line[k..], net) ==
              if CountIn(line[..k], {',', '.'}) == 5 then PortLine(net.listen.value.name.value) + line[k..] else line
  {
    hide WellFormed, Recognised, PortLine, Join;
    SixFields(fields, v, eol);
    var body, seps := Join(fields, ','), {',', '.'};
    var line := "PORT " + body + eol;
    BodyOfLine(fields, v, eol);
    assert line == line[..k] + line[k..];
    SecondPart(body, eol, k);
    if k < 5 {
      assert line[..k] == "PORT "[..k];
      ShortPart(k);
    } else {
      var j := k - 5;
      BeginningOfLine(fields, v, eol, j);
      assert line[..k] == "PORT " + body[..j];
      CountConcat("PORT ", body[..j], seps);
      NoneCounted("PORT ", seps);
    }
  }

  lemma ShortPart(k: nat)
    requires k < 5
    ensures !Recognised("PORT "[..k], k) && CountIn("PORT "[..k], {',', '.'}) == 0
  {
    NoneCounted("PORT "[..k], {',', '.'});
  }

  lemma SecondPart(body: string, eol: string, k: nat)
    requires Free(body, {'P'}) && Eol(eol) && 0 < k <= 5 + |body|
    ensures var line := "PORT " + body + eol; !Recognised(line[k..], |line| - k)
  {
    var line := "PORT " + body + eol;
    if k < |line| {
      assert line[k] == if k < 5 then "PORT "[k] else if k < 5 + |body| then body[k - 5] else eol[k - 5 - |body|];
      if |line| - k >= 5 { assert line[k..][..4][0] == line[k]; }
    }
  }

  lemma ValueOfBeginning(s: string, j: nat)
    requires j <= |s|
    ensures Value(s[..j], 10, 0) <= Value(s, 10, 0)
  {
    assert s[..j] + s[j..] == s;
    ValueConcat(s[..j], s[j..], 10, 0);
    ValueGrows(s[j..], Value(s[..j], 10, 0));
  }

  // A well-formed line cut in its last field, by its fields.
  lemma CutFields(fields: seq<string>, v: seq<nat>, eol: string, j: nat)
    requires WellFormed(fields, v, eol) && j <= |fields[5]|
    ensures var line, k := "PORT " + Join(fields, ',') + eol, 6 + |Join(fields[..5], ',')| + j;
            k <= |line| && line[..k] == "PORT " + Join(fields[5 := fields[5][..j]], ',')
  {
    hide WellFormed;
    SixFields(fields, v, eol);
    var cut := fields[5 := fields[5][..j]];
    assert fields == fields[..5] + [fields[5]] && cut == fields[..5] + [fields[5][..j]];
    JoinConcat(fields[..5], [fields[5]], ',');
    JoinConcat(fields[..5], [fields[5][..j]], ',');
  }

  /** A PORT line whose first read ends in its last field is dialled at the port that the
      digits before the cut name. */
  lemma CutLineDials(fields: seq<string>, v: seq<nat>, eol: string, j: nat)
    requires WellFormed(fields, v, eol) && j <= |fields[5]|
    ensures var line, k := "PORT " + Join(fields, ',') + eol, 6 + |Join(fields[..5], ',')| + j;
            5 < k <= |line| && Recognised(line[..k], k) &&
            Parsed(Argument(line[..k])) ==
              Some(Endpoint(Address(v[0], v[1], v[2], v[3]), v[4] * 256 + Value(fields[5][..j], 10, 0)))
  {
    hide InetAton, PortLoop, Parsed, Address, Join, HasHexDigit, Value, Recognised;
    var cut := fields[5 := fields[5][..j]];
    CutFields(fields, v, eol, j);
    forall i | 0 <= i < 6
      ensures Free(cut[i], {',', '.'}) && Free(cut[i], {','}) && Free(cut[i], LINE_END) && Free(cut[i], {NUL})
      ensures i < 5 ==> HasHexDigit(cut[i])
    {
      WellFormedField(fields, v, eol, i);
    }
    ValueOfBeginning(fields[5], j);
    ParsedOfLine(cut, "");
    assert cut[..4] == fields[..4] && cut[5] + "" == cut[5] && Join(cut, ',') + "" == Join(cut, ',');
    AtonOfNumerals(fields[..4], v[..4]);
    PortOfDigits(cut[4], cut[5], "");
    RecognisedFields(cut);
    JoinFree(cut, ',', {NUL});
    UntilAt(Join(cut, ','), "", {NUL});
    assert ("PORT " + Join(cut, ','))[5..] == Join(cut, ',');
  }

  lemma RecognisedFields(fields: seq<string>)
    requires |fields| == 6 && forall i :: 0 <= i < 6 ==> Free(fields[i], {',', '.'}) && Free(fields[i], LINE_END)
    requires forall i :: 0 <= i < 5 ==> HasHexDigit(fields[i])
    ensures var chunk := "PORT " + Join(fields, ','); Recognised(chunk, |chunk|)
  {
    hide Join, Split, HasHexDigit;
    var body := Join(fields, ',');
    JoinFree(fields, ',', LINE_END);
    SplitJoin(fields, ',', {',', '.'});
    UntilAt(body, "", LINE_END);
    assert body + "" == body && ("PORT " + body)[5..|"PORT " + body|] == body;
  }
}
