/** The loops of utils.c over character buffers. */
module PortCommand {
  import opened Options
  import opened Text
  import opened PortSpec
  import opened PortTheorems

  // ---- is_port_command ----

  // How the scan goes on: the fields still to come, whether the current one already
  // has a digit, and the separators seen so far.
  predicate Accepts(fields: seq<string>, valueHave: bool, delimiters: nat)
    requires fields != []
  {
    && |fields| + delimiters == 6
    && (|fields| > 1 ==> valueHave || HasHexDigit(fields[0]))
    && forall i :: 1 <= i < |fields| - 1 ==> HasHexDigit(fields[i])
  }

  lemma ScanStep(c: char, rest: string, valueHave: bool, delimiters: nat)
    ensures var here, next := Split([c] + rest, {',', '.'}), Split(rest, {',', '.'});
            Accepts(here, valueHave, delimiters) ==
            if IsHexDigit(c) then Accepts(next, true, delimiters)
            else if c == ',' || c == '.' then valueHave && Accepts(next, false, delimiters + 1)
            else Accepts(next, valueHave, delimiters)
  {
    var here, next := Split([c] + rest, {',', '.'}), Split(rest, {',', '.'});
    assert ([c] + rest)[1..] == rest;
    if c == ',' || c == '.' {
      assert forall i :: 1 <= i < |here| ==> here[i] == next[i - 1];
      assert forall i :: 0 <= i < |next| ==> next[i] == here[i + 1];
    } else {
      assert here[0] == [c] + next[0] && forall i :: 1 <= i < |here| ==> here[i] == next[i];
      assert HasHexDigit(here[0]) <==> IsHexDigit(c) || HasHexDigit(next[0]) by {
        assert here[0][0] == c && forall i :: 0 <= i < |next[0]| ==> here[0][i + 1] == next[0][i];
      }
    }
  }

  method IsPortCommand(command: array<char>, size: nat) returns (answer: bool)
    requires size <= command.Length
    ensures answer == Recognised(command[..], size)
  {
    if size < 5 {
      return false;
    }
    if command[..4] != "PORT" {
      return false;
    }
    var pos, valueHave, delimiters := 5, false, 0;
    assert command[..][..4] == command[..4] && command[..][5..size] == command[5..size];
    while pos < size && command[pos] !in LINE_END
      invariant 5 <= pos <= size && 0 <= delimiters
      invariant Accepts(Split(Until(command[pos..size], LINE_END), {',', '.'}), valueHave, delimiters)
             == Recognised(command[..], size)
    {
      assert command[pos..size][1..] == command[pos + 1..size];
      ScanStep(command[pos], Until(command[pos + 1..size], LINE_END), valueHave, delimiters);
      if IsHexDigit(command[pos]) {
        valueHave := true;
      } else if command[pos] == ',' || command[pos] == '.' {
        if !valueHave {
          return false;
        }
        delimiters := delimiters + 1;
        valueHave := false;
      }
      pos := pos + 1;
    }
    answer := delimiters == 5;
  }

  // ---- generate_port_command ----

  lemma NtoaText(address: nat)
    requires address < 0x1_0000_0000
    ensures Free(InetNtoa(address), LINE_END)
  {
    var quad := Printed(Bytes(address));
    forall i | 0 <= i < 4 ensures Free(quad[i], LINE_END) {
      DecimalNumeral(Bytes(address)[i]);
      NumeralChars(quad[i]);
    }
    JoinFree(quad, '.', LINE_END);
  }

  // The loop that rewrites the text of inet_ntoa in place; `length` is its C length.
  method DotsToCommas(addressText: array<char>, ghost text: string) returns (length: nat)
    requires Free(text, LINE_END) && text + [NUL] <= addressText[..]
    modifies addressText
    ensures length == |text| < addressText.Length && addressText[..length] == Replace(text, '.', ',')
  {
    assert forall i :: 0 <= i < |text| ==> addressText[i] == text[i];
    assert addressText[..][|text|] == NUL;
    var pos := 0;
    while addressText[pos] !in LINE_END
      invariant 0 <= pos <= |text| < addressText.Length
      invariant forall i :: 0 <= i < pos ==> addressText[i] == Replace(text, '.', ',')[i]
      invariant forall i :: pos <= i < |text| ==> addressText[i] == text[i]
      invariant addressText[|text|] == NUL
      decreases |text| - pos
    {
      if addressText[pos] == '.' {
        addressText[pos] := ',';
      }
      pos := pos + 1;
    }
    length := pos;
  }

  // strcat at the known end of the text.
  method Concatenate(destination: array<char>, end: nat, text: string) returns (newEnd: nat)
    requires end + |text| <= destination.Length
    modifies destination
    ensures newEnd == end + |text| && destination[..newEnd] == old(destination[..end]) + text
  {
    newEnd := end + |text|;
    forall i | 0 <= i < |text| { destination[end + i] := text[i]; }
    assert destination[..newEnd] == destination[..end] + destination[end..newEnd];
  }

  method Compose(destination: array<char>, addressStr: string, portStr: string) returns (length: nat)
    requires 7 + |addressStr| + |portStr| < destination.Length
    modifies destination
    ensures length < destination.Length && destination[length] == NUL
    ensures destination[..length] == "PORT " + addressStr + "," + portStr + "\n"
  {
    var end := Concatenate(destination, 0, "PORT ");
    end := Concatenate(destination, end, addressStr);
    end := Concatenate(destination, end, ",");
    end := Concatenate(destination, end, portStr);
    length := Concatenate(destination, end, "\n");
    destination[length] := NUL;
  }

  // `name` is what getsockname answers for the socket.
  method GeneratePortCommand(socketFd: int, name: Option<Endpoint>, destination: array?<char>) returns (ret: int)
    requires name.Some? ==> name.value.address < 0x1_0000_0000 && name.value.port < 0x1_0000
    requires name.Some? && destination != null ==> |PortLine(name.value)| < destination.Length
    modifies destination
    ensures if socketFd < 0 || destination == null then ret == -1
            else if name.None? then ret == -2
            else ret == |PortLine(name.value)| && destination[..ret] == PortLine(name.value) && destination[ret] == NUL
    ensures ret < 0 && destination != null ==> destination[..] == old(destination[..])
  {
    if socketFd < 0 || destination == null {
      return -1;
    }
    if name.None? {
      return -2;
    }
    hide InetNtoa, Decimal, Replace;
    var port, text := name.value.port, InetNtoa(name.value.address);
    var addressText := new char[|text| + 1](i => if 0 <= i < |text| then text[i] else NUL);
    assert addressText[..] == text + [NUL];
    NtoaText(name.value.address);
    var length := DotsToCommas(addressText, text);
    var portStr := Decimal(port / 256) + "," + Decimal(port % 256);
    LineParts(name.value);
    ret := Compose(destination, addressText[..length], portStr);
  }

  lemma LineParts(e: Endpoint)
    requires e.address < 0x1_0000_0000
    ensures PortLine(e) == "PORT " + Replace(InetNtoa(e.address), '.', ',') + "," +
                           (Decimal(e.port / 256) + "," + Decimal(e.port % 256)) + "\n"
  {
  }

  // ---- get_address_from_port_command ----

  // The C string that starts at `offset`, cut after `n` characters.
  ghost function CText(buffer: array<char>, offset: nat, n: nat): string
    requires offset <= buffer.Length
    reads buffer
  {
    Until(if offset + n <= buffer.Length then buffer[offset..offset + n] else buffer[offset..], {NUL})
  }

  lemma CTextEnds(buffer: array<char>, offset: nat, n: nat)
    requires offset <= buffer.Length
    requires offset + n <= buffer.Length || NUL in buffer[offset..]
    ensures Starts(CText(buffer, offset, n), buffer, offset, n)
  {
    var source := if offset + n <= buffer.Length then buffer[offset..offset + n] else buffer[offset..];
    var text := CText(buffer, offset, n);
    assert text <= source;
    if offset + n > buffer.Length { assert text != source; }
    if text != source { assert source[|text|] == NUL; }
  }

  // `text` is the C string at `offset`, or its first `n` characters.
  ghost predicate Starts(text: string, buffer: array<char>, offset: nat, n: nat)
    reads buffer
  {
    && Free(text, {NUL}) && |text| <= n && offset + |text| <= buffer.Length
    && (forall j :: 0 <= j < |text| ==> text[j] == buffer[offset + j])
    && (|text| == n || (offset + |text| < buffer.Length && buffer[offset + |text|] == NUL))
  }

  // strncpy into a buffer of n + 1 characters, and the final NUL.
  method Duplicate(buffer: array<char>, offset: nat, n: nat, ghost text: string) returns (copy: array<char>)
    requires Starts(text, buffer, offset, n)
    ensures fresh(copy) && copy.Length == n + 1 && copy[..|text|] == text && copy[|text|] == NUL
  {
    copy := new char[n + 1](_ => NUL);
    var i := 0;
    while i < n && buffer[offset + i] != NUL
      invariant 0 <= i <= |text|
      invariant forall j :: 0 <= j < i ==> copy[j] == text[j]
      invariant forall j :: i <= j <= n ==> copy[j] == NUL
      invariant i < |text| ==> text[i] == buffer[offset + i] != NUL
    {
      copy[i] := buffer[offset + i];
      i := i + 1;
    }
  }

  // What the comma loop writes at position i.
  ghost function Edited(text: string, i: nat): char
    requires i < |text|
  {
    if text[i] != ',' then text[i] else if CountIn(text[..i], {','}) == 3 then NUL else '.'
  }

  lemma CountUpTo(text: string, i: nat, j: nat)
    requires i <= j <= |text|
    ensures CountIn(text[..j], {','}) == CountIn(text[..i], {','}) + CountIn(text[i..j], {','})
  {
    CountConcat(text[..i], text[i..j], {','});
    assert text[..j] == text[..i] + text[i..j];
  }

  lemma CountSnoc(text: string, i: nat)
    requires i < |text|
    ensures CountIn(text[..i + 1], {','}) == CountIn(text[..i], {','}) + if text[i] == ',' then 1 else 0
  {
    CountUpTo(text, i, i + 1);
    assert text[i..i + 1] == [text[i]];
    assert [text[i]][1..] == "";
  }

  // The fourth comma has three before it and, of five, one behind it.
  lemma AroundFourth(text: string, cut: nat)
    requires CountIn(text, {','}) == 5
    requires cut < |text| && text[cut] == ',' && CountIn(text[..cut], {','}) == 3
    ensures CountIn(text[cut + 1..], {','}) == 1
    ensures forall i :: 0 <= i < cut ==> Edited(text, i) == Replace(text[..cut], ',', '.')[i]
    ensures forall i :: cut < i < |text| ==> Edited(text, i) == Replace(text[cut + 1..], ',', '.')[i - cut - 1]
  {
    CountSnoc(text, cut);
    CountUpTo(text, cut + 1, |text|);
    assert text[..|text|] == text && text[cut + 1..|text|] == text[cut + 1..];
    forall i | 0 <= i < cut ensures Edited(text, i) == Replace(text[..cut], ',', '.')[i] {
      CountSnoc(text, i);
      CountUpTo(text, i + 1, cut);
    }
    forall i | cut < i < |text| ensures Edited(text, i) == Replace(text[cut + 1..], ',', '.')[i - cut - 1] {
      CountUpTo(text, cut + 1, i);
    }
  }

  lemma FieldsAroundFourth(text: string, cut: nat)
    requires cut < |text| && text[cut] == ','
    requires CountIn(text[..cut], {','}) == 3 && CountIn(text[cut + 1..], {','}) == 1
    ensures var fields := Split(text, {','});
            |fields| == 6 && Replace(text[..cut], ',', '.') == Join(fields[..4], '.') &&
            Replace(text[cut + 1..], ',', '.') == fields[4] + "." + fields[5]
  {
    var left, right := text[..cut], text[cut + 1..];
    assert text == left + "," + right;
    SplitOfJoined(left, ',', right);
    var a, b := Split(left, {','}), Split(right, {','});
    JoinSplit(left, ',');
    JoinSplit(right, ',');
    ReplaceJoin(a, ',', '.');
    ReplaceJoin(b, ',', '.');
    assert |a| == 4 && |b| == 2 && Split(text, {','})[..4] == a;
    assert Join(b, '.') == b[0] + "." + b[1] by { assert b[1..] == [b[1]]; }
  }

  // With five commas the fourth one cuts the text into address and port.
  lemma CutAtFourth(text: string, edited: string, cut: nat)
    requires CountIn(text, {','}) == 5 && |edited| >= |text| && Free(text, {NUL})
    requires forall i :: 0 <= i < |text| ==> edited[i] == Edited(text, i)
    requires cut < |text| && text[cut] == ',' && CountIn(text[..cut], {','}) == 3
    ensures var fields := Split(text, {','});
            Until(edited, {NUL}) == Join(fields[..4], '.') && edited[cut + 1..|text|] == fields[4] + "." + fields[5]
  {
    AroundFourth(text, cut);
    FieldsAroundFourth(text, cut);
    var left, right := text[..cut], text[cut + 1..];
    assert edited[..cut] == Replace(left, ',', '.') && edited[cut + 1..|text|] == Replace(right, ',', '.');
    assert Free(edited[..cut], {NUL});
    UntilAt(edited[..cut], edited[cut..], {NUL});
    assert edited == edited[..cut] + edited[cut..];
  }

  lemma FieldsFree(text: string)
    requires CountIn(text, {','}) == 5 && Free(text, {NUL})
    ensures var fields := Split(text, {','}); Free(fields[4] + "." + fields[5], {NUL})
  {
    PartsOfText(text, {','}, {NUL});
  }

  // The loop that turns a,b,c,d,e,f into a.b.c.d, NUL, e.f
  method ReplaceCommas(addrStr: array<char>, ghost text: string) returns (commas: nat, portStr: nat)
    requires |text| < addrStr.Length && addrStr[..|text|] == text && addrStr[|text|] == NUL && Free(text, {NUL})
    modifies addrStr
    ensures commas == CountIn(text, {','}) && addrStr[|text|] == NUL
    ensures forall j :: 0 <= j < |text| ==> addrStr[j] == Edited(text, j)
    ensures commas > 3 ==> 0 < portStr <= |text| && text[portStr - 1] == ',' && CountIn(text[..portStr - 1], {','}) == 3
  {
    var p := 0;
    commas, portStr := 0, 0;
    assert forall j :: 0 <= j < |text| ==> addrStr[j] == addrStr[..|text|][j];
    while addrStr[p] != NUL
      invariant 0 <= p <= |text|
      invariant forall j :: 0 <= j < p ==> addrStr[j] == Edited(text, j)
      invariant forall j :: p <= j < |text| ==> addrStr[j] == text[j]
      invariant addrStr[|text|] == NUL
      invariant commas == CountIn(text[..p], {','})
      invariant commas > 3 ==> 0 < portStr <= p && text[portStr - 1] == ',' && CountIn(text[..portStr - 1], {','}) == 3
      decreases |text| - p
    {
      CountSnoc(text, p);
      if addrStr[p] == ',' {
        if commas != 3 {
          addrStr[p] := '.';
        } else {
          addrStr[p] := NUL;
          portStr := p + 1;
        }
        commas := commas + 1;
      }
      p := p + 1;
    }
    assert text[..p] == text;
  }

  // The digit loop and the final check.
  method ParsePort(addrStr: array<char>, portStr: nat, ghost text: string) returns (r: Option<nat>)
    requires portStr + |text| < addrStr.Length && Free(text, {NUL})
    requires addrStr[portStr..portStr + |text|] == text && addrStr[portStr + |text|] == NUL
    ensures r == PortLoop(text, true, 0, 0)
  {
    var p, port, val := portStr, 0, 0;
    assert forall j :: 0 <= j < |text| ==> text[j] == addrStr[portStr + j];
    while addrStr[p] != NUL
      invariant portStr <= p <= portStr + |text| && 0 <= val
      invariant PortLoop(text[p - portStr..], p == portStr, port, val) == PortLoop(text, true, 0, 0)
      decreases portStr + |text| - p
    {
      ghost var rest := text[p - portStr..];
      assert rest[0] == addrStr[p] && rest[1..] == text[p + 1 - portStr..];
      if !IsDigit(addrStr[p]) {
        if addrStr[p] in EOL {
          p := p + 1;
          continue;
        }
        if p == portStr || addrStr[p] != '.' || val > 0xFF {
          return None;
        }
        port := ShiftIn(port, val);
        val := 0;
      } else {
        val := (val * 10 + DigitOf(addrStr[p])) % UNSIGNED_LONG;
      }
      p := p + 1;
    }
    if val > 0xFF || port > 0xFF {
      return None;
    }
    r := Some(ShiftIn(port, val) % 0x1_0000);
  }

  method GetAddressFromPortCommand(buffer: array<char>, offset: nat, receivedBytes: nat)
    returns (addr: Option<Endpoint>)
    requires offset <= buffer.Length
    requires offset + receivedBytes <= buffer.Length || NUL in buffer[offset..]
    ensures addr == Parsed(CText(buffer, offset, receivedBytes))
  {
    hide InetAton, PortLoop, Split, Join, Until, CountIn, Edited, CText;
    ghost var text := CText(buffer, offset, receivedBytes);
    CTextEnds(buffer, offset, receivedBytes);
    var addrStr := Duplicate(buffer, offset, receivedBytes, text);
    var commas, portStr := ReplaceCommas(addrStr, text);
    if commas != 5 {
      return None;
    }
    CutAtFourth(text, addrStr[..], portStr - 1);
    var address := InetAton(Until(addrStr[..], {NUL}));
    if address == None {
      return None;
    }
    ghost var fields := Split(text, {','});
    FieldsFree(text);
    var port := ParsePort(addrStr, portStr, fields[4] + "." + fields[5]);
    if port == None {
      return None;
    }
    addr := Some(Endpoint(address.value, port.value));
  }
}
