/** How the recogniser, the parser and the printer of PORT fit together. */
module PortTheorems {
  import opened Options
  import opened Text
  import opened PortSpec

  predicate Body(s: string) {
    Free(s, LINE_END)
  }

  predicate Eol(s: string) {
    forall i :: 0 <= i < |s| ==> s[i] in EOL
  }

  // ---- Well-formed lines ----

  // A numeral of inet_aton is made of digits and an `x`.
  lemma NumeralChars(s: string)
    requires Numeral(s).Some?
    ensures HasHexDigit(s) && Free(s, SPACES) && Free(s, {',', '.'}) && Free(s, LINE_END)
  {
    assert IsHexDigit(s[0]);
    forall i | 0 <= i < |s| ensures s[i] !in SPACES && s[i] !in {',', '.'} && s[i] !in LINE_END {
      if |s| > 2 && i >= 2 { assert s[i] == s[2..][i - 2]; }
    }
  }

  lemma {:induction false} NumeralsOf(parts: seq<string>, values: seq<nat>)
    requires |parts| == |values| && forall i :: 0 <= i < |parts| ==> Numeral(parts[i]) == Some(values[i])
    ensures Numerals(parts) == Some(values)
  {
    if parts == [] {
      assert values == [];
    } else {
      NumeralsOf(parts[1..], values[1..]);
      assert [values[0]] + values[1..] == values;
    }
  }

  lemma {:induction false} JoinFree(fields: seq<string>, sep: char, stop: set<char>)
    requires fields != [] && sep !in stop && forall i :: 0 <= i < |fields| ==> Free(fields[i], stop)
    ensures Free(Join(fields, sep), stop)
  {
    if |fields| > 1 { JoinFree(fields[1..], sep, stop); }
  }

  // What inet_aton finds in fields joined by dots.
  lemma AtonText(parts: seq<string>)
    requires parts != [] && forall i :: 0 <= i < |parts| ==> Free(parts[i], SPACES) && Free(parts[i], {'.'})
    ensures Split(Until(Join(parts, '.'), SPACES), {'.'}) == parts
  {
    hide Until, Split, Join, CountIn, Free;
    JoinFree(parts, '.', SPACES);
    UntilAt(Join(parts, '.'), "", SPACES);
    assert Join(parts, '.') + "" == Join(parts, '.');
    SplitJoin(parts, '.', {'.'});
  }

  lemma AtonOfNumerals(parts: seq<string>, v: seq<nat>)
    requires |parts| == |v| == 4 && forall i :: 0 <= i < 4 ==> Numeral(parts[i]) == Some(v[i])
    requires forall i :: 0 <= i < 4 ==> v[i] < 256
    ensures InetAton(Join(parts, '.')) == Some(Address(v[0], v[1], v[2], v[3]))
  {
    forall i | 0 <= i < 4 ensures Free(parts[i], SPACES) && Free(parts[i], {'.'}) { NumeralChars(parts[i]); }
    AtonText(parts);
    NumeralsOf(parts, v);
  }

  // Six fields and the end of the line.
  predicate WellFormed(fields: seq<string>, v: seq<nat>, eol: string) {
    && |fields| == 6 && |v| == 6 && Eol(eol)
    && (forall i :: 0 <= i < 4 ==> Numeral(fields[i]) == Some(v[i]))
    && (forall i :: 4 <= i < 6 ==> fields[i] != "" && AllDigits(fields[i], 10) && Value(fields[i], 10, 0) == v[i])
    && (forall i :: 0 <= i < 6 ==> v[i] < 256)
  }

  lemma WellFormedField(fields: seq<string>, v: seq<nat>, eol: string, i: nat)
    requires WellFormed(fields, v, eol) && i < 6
    ensures HasHexDigit(fields[i]) && Free(fields[i], {',', '.'}) && Free(fields[i], LINE_END)
  {
    if i < 4 { NumeralChars(fields[i]); } else { assert IsHexDigit(fields[i][0]); }
  }

  lemma {:induction false} JoinAppend(fields: seq<string>, tail: string, sep: char)
    requires fields != []
    ensures Join(fields, sep) + tail == Join(Extend(fields, tail), sep)
  {
    if |fields| > 1 {
      JoinAppend(fields[1..], tail, sep);
      assert Extend(fields, tail)[1..] == Extend(fields[1..], tail);
    }
  }

  // A line of six fields without commas, and what the parser reads of it.
  lemma ParsedOfLine(fields: seq<string>, eol: string)
    requires |fields| == 6 && Eol(eol) && forall i :: 0 <= i < 6 ==> Free(fields[i], {','})
    ensures Parsed(Join(fields, ',') + eol) ==
              match (InetAton(Join(fields[..4], '.')), PortLoop(fields[4] + "." + (fields[5] + eol), true, 0, 0))
              case (Some(address), Some(port)) => Some(Endpoint(address, port))
              case _ => None
  {
    hide InetAton, PortLoop, Join, Split;
    var all := Extend(fields, eol);
    JoinAppend(fields, eol, ',');
    SplitJoin(all, ',', {','});
    assert all[..4] == fields[..4];
  }

  /** Every line of six numbers below 256, each as inet_aton reads it in the address and
      with any leading zeros in the port, with any line end, is parsed to the address and
      port it names. */
  lemma WellFormedParses(fields: seq<string>, v: seq<nat>, eol: string)
    requires WellFormed(fields, v, eol)
    ensures Parsed(Join(fields, ',') + eol) == Some(Endpoint(Address(v[0], v[1], v[2], v[3]), v[4] * 256 + v[5]))
  {
    hide InetAton, PortLoop, Parsed, Join, Address;
    forall i | 0 <= i < 6 ensures Free(fields[i], {','}) {
      WellFormedField(fields, v, eol, i);
    }
    ParsedOfLine(fields, eol);
    AtonOfNumerals(fields[..4], v[..4]);
    PortOfDigits(fields[4], fields[5], eol);
  }

  // Six runs of decimal digits below 256.
  predicate DecimalLine(fields: seq<string>, v: seq<nat>, eol: string) {
    && |fields| == |v| == 6 && Eol(eol)
    && forall i :: 0 <= i < 6 ==> fields[i] != "" && AllDigits(fields[i], 10) && Value(fields[i], 10, 0) == v[i] < 256
  }

  lemma DigitsOnly(s: string)
    requires AllDigits(s, 10)
    ensures Free(s, SPACES) && Free(s, {','}) && Free(s, {'.'})
  {
    forall i | 0 <= i < |s| ensures s[i] !in SPACES && s[i] != ',' && s[i] != '.' { assert DigitOf(s[i]) < 10; }
  }

  lemma ByteInjective(a: nat, b: nat, c: nat, d: nat)
    requires b < 256 && d < 256
    ensures a * 256 + b == c * 256 + d <==> a == c && b == d
  {
  }

  lemma AddressInjective(u: seq<nat>, v: seq<nat>)
    requires |u| == |v| == 4 && forall i :: 0 <= i < 4 ==> u[i] < 256 && v[i] < 256
    ensures Address(u[0], u[1], u[2], u[3]) == Address(v[0], v[1], v[2], v[3]) <==> u == v
  {
    ByteInjective(u[0], u[1], v[0], v[1]);
    ByteInjective(u[0] * 256 + u[1], u[2], v[0] * 256 + v[1], v[2]);
    ByteInjective((u[0] * 256 + u[1]) * 256 + u[2], u[3], (v[0] * 256 + v[1]) * 256 + v[2], v[3]);
    assert u == v <==> u[0] == v[0] && u[1] == v[1] && u[2] == v[2] && u[3] == v[3];
  }

  lemma AtonOfNoNumeral(parts: seq<string>, i: nat)
    requires i < |parts| && forall k :: 0 <= k < |parts| ==> Free(parts[k], SPACES) && Free(parts[k], {'.'})
    requires Numeral(parts[i]).None?
    ensures InetAton(Join(parts, '.')) == None
  {
    hide Join, Split, Until;
    AtonText(parts);
  }

  // inet_aton on four runs of digits.
  lemma AtonOfDigits(parts: seq<string>, v: seq<nat>)
    requires |parts| == |v| == 4
    requires forall i :: 0 <= i < 4 ==>
               parts[i] != "" && AllDigits(parts[i], 10) && Value(parts[i], 10, 0) == v[i] < 256
    ensures InetAton(Join(parts, '.')) == Some(Address(v[0], v[1], v[2], v[3]))
            <==> forall i :: 0 <= i < 4 ==> parts[i][0] != '0' || v[i] < 8
  {
    hide Numeral, InetAton, Join, Address, Value, AllDigits, Free;
    forall i | 0 <= i < 4
      ensures Free(parts[i], SPACES) && Free(parts[i], {'.'})
      ensures Numeral(parts[i]) == Some(v[i]) <==> parts[i][0] != '0' || v[i] < 8
      ensures Numeral(parts[i]).Some? ==> Numeral(parts[i]).value <= v[i]
    {
      DigitsOnly(parts[i]);
      LeadingZero(parts[i]);
    }
    if i: nat :| i < 4 && Numeral(parts[i]).None? {
      AtonOfNoNumeral(parts, i);
    } else {
      var numbers := seq(4, i requires 0 <= i < 4 => Numeral(parts[i]).value);
      AtonOfNumerals(parts, numbers);
      AddressInjective(numbers, v);
    }
  }

  /** On a line of decimal numbers the parser answers the endpoint they name exactly when
      no field of the address that begins with a zero is worth 8 or more: inet_aton reads
      it in octal, or not at all. Leading zeros in the port are free. */
  lemma DecimalLineParsesExactly(fields: seq<string>, v: seq<nat>, eol: string)
    requires DecimalLine(fields, v, eol)
    ensures Parsed(Join(fields, ',') + eol) == Some(Endpoint(Address(v[0], v[1], v[2], v[3]), v[4] * 256 + v[5]))
            <==> forall i :: 0 <= i < 4 ==> fields[i][0] != '0' || v[i] < 8
  {
    hide InetAton, PortLoop, Parsed, Join, Address;
    forall i | 0 <= i < 6 ensures Free(fields[i], {','}) { DigitsOnly(fields[i]); }
    ParsedOfLine(fields, eol);
    AtonOfDigits(fields[..4], v[..4]);
    PortOfDigits(fields[4], fields[5], eol);
    assert forall i :: 0 <= i < 4 ==> fields[..4][i] == fields[i] && v[..4][i] == v[i];
  }

  lemma PortOfDigits(p: string, q: string, eol: string)
    requires p != "" && AllDigits(p, 10) && AllDigits(q, 10) && Eol(eol)
    requires Value(p, 10, 0) < 256 && Value(q, 10, 0) < 256
    ensures PortLoop(p + "." + (q + eol), true, 0, 0) == Some(Value(p, 10, 0) * 256 + Value(q, 10, 0))
  {
    ValueConcat(q, eol, 10, 0);
    EolHasNoValue(eol, Value(q, 10, 0));
    Fits(Value(p, 10, 0));
    Fits(Value(q, 10, 0));
    PortLoopOfDigits(p, q + eol);
  }

  lemma {:induction false} EolHasNoValue(eol: string, before: nat)
    requires Eol(eol)
    ensures Value(eol, 10, before) == before
  {
    if eol != "" {
      assert DigitOf(eol[0]) == 16;
      EolHasNoValue(eol[1..], before);
    }
  }

  /** The recogniser accepts such a line too. */
  lemma WellFormedIsRecognised(fields: seq<string>, v: seq<nat>, eol: string)
    requires WellFormed(fields, v, eol)
    ensures var line := "PORT " + Join(fields, ',') + eol; Recognised(line, |line|)
  {
    var body := Join(fields, ',');
    var line := "PORT " + body + eol;
    forall i | 0 <= i < 6 ensures HasHexDigit(fields[i]) && Free(fields[i], {',', '.'}) && Free(fields[i], LINE_END) {
      WellFormedField(fields, v, eol, i);
    }
    JoinFree(fields, ',', LINE_END);
    UntilAt(body, eol, LINE_END);
    SplitJoin(fields, ',', {',', '.'});
    assert line[5..|line|] == body + eol;
  }

  // ---- Recogniser against parser ----

  lemma {:induction false} SplitOfJoined(a: string, sep: char, rest: string)
    ensures Split(a + [sep] + rest, {sep}) == Split(a, {sep}) + Split(rest, {sep})
  {
    var s := a + [sep] + rest;
    if a == "" {
      assert s[1..] == rest;
    } else {
      assert s[1..] == a[1..] + [sep] + rest;
      SplitOfJoined(a[1..], sep, rest);
    }
  }

  // `fields` with `tail` added to the last one.
  function Extend(fields: seq<string>, tail: string): seq<string>
    requires fields != []
  {
    fields[..|fields| - 1] + [fields[|fields| - 1] + tail]
  }

  lemma ExtendFirst(f: seq<string>, c: string, tail: string)
    requires f != []
    ensures Extend([""] + f, tail) == [""] + Extend(f, tail)
    ensures Extend([c + f[0]] + f[1..], tail) == [c + Extend(f, tail)[0]] + Extend(f, tail)[1..]
  {
    if |f| == 1 { assert (c + f[0]) + tail == c + (f[0] + tail); }
  }

  // The end of the line stays in the last field.
  lemma {:induction false} SplitTail(s: string, tail: string, seps: set<char>)
    requires Free(tail, seps)
    ensures Split(s + tail, seps) == Extend(Split(s, seps), tail)
  {
    if s == "" {
      assert s + tail == tail;
      SplitFree(tail, seps);
    } else {
      var f := Split(s[1..], seps);
      assert (s + tail)[1..] == s[1..] + tail;
      SplitTail(s[1..], tail, seps);
      ExtendFirst(f, [s[0]], tail);
    }
  }

  // If the parser takes the line, the first port field begins with a digit.
  lemma PortFieldHasDigit(p: string, q: string)
    requires Free(p, LINE_END) && PortLoop(p + "." + q, true, 0, 0).Some?
    ensures HasHexDigit(p)
  {
    assert (p + "." + q)[0] == if p == "" then '.' else p[0];
    assert IsDigit(p[0]) && IsHexDigit(p[0]);
  }

  // Without blanks inet_aton reads all four address fields.
  lemma AddressFieldsHaveDigits(parts: seq<string>)
    requires |parts| == 4 && forall i :: 0 <= i < 4 ==> Free(parts[i], SPACES) && Free(parts[i], {'.'})
    requires InetAton(Join(parts, '.')).Some?
    ensures forall i :: 0 <= i < 4 ==> HasHexDigit(parts[i])
  {
    AtonText(parts);
    forall i | 0 <= i < 4 ensures HasHexDigit(parts[i]) {
      assert Numeral(parts[i]).Some?;
      NumeralChars(parts[i]);
    }
  }

  /** On any single line that the parser takes, the recogniser agrees exactly when the
      line has no dot, which it counts as a separator and the parser does not, and each
      of the first four fields has a hexadecimal digit, which the parser, stopping at a
      blank, need not have seen. */
  lemma RecogniserAgreesExactly(head: string, body: string, eol: string)
    requires |head| == 5 && head[..4] == "PORT"
    requires Body(body) && Eol(eol) && Parsed(body + eol).Some?
    ensures var line, fields := head + body + eol, Split(body, {','});
            |fields| == 6 &&
            (Recognised(line, |line|) <==> '.' !in body && forall i :: 0 <= i < 4 ==> HasHexDigit(fields[i]))
  {
    hide PortLoop, InetAton, Join, HasHexDigit, CountIn, Until;
    var line := head + body + eol;
    assert line[5..|line|] == body + eol && line[..4] == "PORT";
    UntilAt(body, eol, LINE_END);
    SplitTail(body, eol, {','});
    CountMore(body, ',', '.');
    var commas, all := Split(body, {','}), Split(body + eol, {','});
    assert |commas| == 6 && all[4] == commas[4];
    PartsOfText(body, {','}, LINE_END);
    PortFieldHasDigit(all[4], all[5]);
    assert Valued(commas) <==> forall i :: 0 <= i < 4 ==> HasHexDigit(commas[i]);
  }

  /** Without blanks only a dot can divide them. */
  lemma RecogniserAgreesWithoutBlanks(head: string, body: string, eol: string)
    requires |head| == 5 && head[..4] == "PORT"
    requires Body(body) && Free(body, SPACES) && Eol(eol) && Parsed(body + eol).Some?
    ensures var line := head + body + eol; Recognised(line, |line|) <==> '.' !in body
  {
    hide PortLoop, InetAton;
    RecogniserAgreesExactly(head, body, eol);
    if '.' !in body {
      SplitTail(body, eol, {','});
      FieldsOfBody(body);
      var f, g := Split(body, {','}), Split(body + eol, {','});
      assert f[..4] == g[..4];
      AddressFieldsHaveDigits(f[..4]);
      assert forall i :: 0 <= i < 4 ==> f[..4][i] == f[i];
    }
  }

  /** A blank in the first field hides the other three from inet_aton. */
  lemma BlankLineDisagrees()
    ensures Parsed("1 ,,,,5,6") == Some(Endpoint(1, 0x506)) && !Recognised("PORT 1 ,,,,5,6", 14)
  {
    hide Parsed, Recognised, Split, HasHexDigit;
    BlankLineParses();
    BlankFields();
    NoDigit();
    var line := "PORT " + "1 ,,,,5,6" + "";
    assert line == "PORT 1 ,,,,5,6" && "1 ,,,,5,6" + "" == "1 ,,,,5,6";
    RecogniserAgreesExactly("PORT ", "1 ,,,,5,6", "");
    assert !HasHexDigit(Split("1 ,,,,5,6", {','})[1]);
  }

  lemma BlankFields()
    ensures Split("1 ,,,,5,6", {','}) == ["1 ", "", "", "", "5", "6"]
  {
    hide Join, Split;
    JoinOfBlank();
    SplitJoin(["1 ", "", "", "", "5", "6"], ',', {','});
  }

  lemma NoDigit()
    ensures !HasHexDigit("")
  {
  }

  lemma BlankLineParses()
    ensures Parsed("1 ,,,,5,6") == Some(Endpoint(1, 0x506))
  {
    hide Parsed, PortLoop, InetAton, Join, Split;
    var fields := ["1 ", "", "", "", "5", "6"];
    JoinOfBlank();
    BlankAddress();
    assert fields[..4] == ["1 ", "", "", ""];
    BlankPort();
    ParsedFromFields(fields, 1, 0x506);
  }

  lemma BlankPort()
    ensures PortLoop("5" + "." + "6", true, 0, 0) == Some(0x506)
  {
    hide PortLoop;
    assert DigitOf('5') == 5 && DigitOf('6') == 6;
    PortOfDigits("5", "6", "");
    assert "6" + "" == "6";
  }

  lemma BlankAddress()
    ensures InetAton("1 ...") == Some(1)
  {
    UntilAt("1", " ...", SPACES);
    assert "1" + " ..." == "1 ...";
    SplitFree("1", {'.'});
    assert Value("1", 10, 0) == 1;
    NumeralsOf(["1"], [1]);
  }

  lemma JoinOfBlank()
    ensures Join(["1 ", "", "", "", "5", "6"], ',') == "1 ,,,,5,6" && Join(["1 ", "", "", ""], '.') == "1 ..."
  {
    assert Join(["5", "6"], ',') == "5,6";
    assert Join(["", "5", "6"], ',') == ",5,6";
    assert Join(["", "", "5", "6"], ',') == ",,5,6";
    assert Join(["", "", "", "5", "6"], ',') == ",,,5,6";
    assert Join(["", ""], '.') == ".";
    assert Join(["", "", ""], '.') == "..";
  }

  lemma {:induction false} PartsOfText(s: string, seps: set<char>, stop: set<char>)
    requires Free(s, stop)
    ensures forall i :: 0 <= i < |Split(s, seps)| ==> Free(Split(s, seps)[i], stop)
  {
    if s != "" { PartsOfText(s[1..], seps, stop); }
  }

  lemma FieldsOfBody(body: string)
    requires Free(body, SPACES) && '.' !in body
    ensures forall i :: 0 <= i < |Split(body, {','})| ==>
              Free(Split(body, {','})[i], {',', '.'}) && Free(Split(body, {','})[i], SPACES)
  {
    PartsOfText(body, {','}, SPACES);
    PartsOfText(body, {','}, {'.'});
  }

  // ---- Printer against both ----

  // The fields of a printed line.
  function PrintedFields(e: Endpoint): seq<string>
    requires e.address < 0x1_0000_0000
  {
    Printed(Bytes(e.address)) + [Decimal(e.port / 256), Decimal(e.port % 256)]
  }

  lemma PrintedWellFormed(e: Endpoint)
    requires e.address < 0x1_0000_0000 && e.port < 0x1_0000
    ensures WellFormed(PrintedFields(e), Bytes(e.address) + [e.port / 256, e.port % 256], "\n")
    ensures PortLine(e) == "PORT " + Join(PrintedFields(e), ',') + "\n"
    ensures forall i :: 0 <= i < 6 ==> |PrintedFields(e)[i]| <= 3
  {
    var numbers := Bytes(e.address) + [e.port / 256, e.port % 256];
    forall i | 0 <= i < 6
      ensures Numeral(PrintedFields(e)[i]) == Some(numbers[i]) && |PrintedFields(e)[i]| <= 3
      ensures AllDigits(PrintedFields(e)[i], 10) && Value(PrintedFields(e)[i], 10, 0) == numbers[i]
      ensures PrintedFields(e)[i] != "" && Free(PrintedFields(e)[i], {'.'})
    {
      assert PrintedFields(e)[i] == Decimal(numbers[i]);
      DecimalNumeral(numbers[i]);
      DecimalValue(numbers[i]);
      NumeralChars(Decimal(numbers[i]));
    }
    var quad, rest := Printed(Bytes(e.address)), [Decimal(e.port / 256), Decimal(e.port % 256)];
    assert forall i :: 0 <= i < 4 ==> quad[i] == PrintedFields(e)[i];
    ReplaceJoin(quad, '.', ',');
    JoinConcat(quad, rest, ',');
    assert Join(rest, ',') == rest[0] + "," + rest[1] by { assert rest[1..] == [rest[1]]; }
  }

  lemma {:induction false} JoinLength(fields: seq<string>, sep: char, most: nat)
    requires fields != [] && forall i :: 0 <= i < |fields| ==> |fields[i]| <= most
    ensures |Join(fields, sep)| <= |fields| * most + |fields| - 1
  {
    if |fields| > 1 { JoinLength(fields[1..], sep, most); }
  }

  /** Round trip: what is printed for any 32-bit address and 16-bit port is recognised,
      fits 29 characters, and parses, after `PORT `, to that address and port. */
  lemma RoundTrip(e: Endpoint)
    requires e.address < 0x1_0000_0000 && e.port < 0x1_0000
    ensures var line := PortLine(e);
            Recognised(line, |line|) && 5 < |line| <= 29 && Parsed(line[5..]) == Some(e)
  {
    var line, fields := PortLine(e), PrintedFields(e);
    var v := Bytes(e.address) + [e.port / 256, e.port % 256];
    PrintedWellFormed(e);
    WellFormedIsRecognised(fields, v, "\n");
    WellFormedParses(fields, v, "\n");
    JoinLength(fields, ',', 3);
    assert line[5..] == Join(fields, ',') + "\n";
  }

  // ---- Where the parser takes what it should not ----

  /** A last field of 2^64 or more is not rejected: it is read modulo 2^64. */
  lemma OversizedFieldWraps(p: nat, n: nat)
    requires p < 256 && n < 256
    ensures PortLoop(Decimal(p) + "." + Decimal(0x1_0000_0000_0000_0000 + n), true, 0, 0) == Some(p * 256 + n)
  {
    hide PortLoop, ShiftIn, Value;
    DecimalValue(p);
    DecimalValue(UNSIGNED_LONG + n);
    Fits(p);
    Fits(n);
    WrapsBy(n, 1);
    PortLoopOfDigits(Decimal(p), Decimal(UNSIGNED_LONG + n));
  }

  // The fields of a,b,c,d,0.0,n
  function Dotted(v: seq<nat>, n: nat): seq<string> {
    Printed(v) + [Decimal(0) + "." + Decimal(0), Decimal(n)]
  }

  lemma DottedField(v: seq<nat>, n: nat, i: nat)
    requires |v| == 4 && i < 6
    ensures Free(Dotted(v, n)[i], {','}) && Free(Dotted(v, n)[i], SPACES) && Free(Dotted(v, n)[i], LINE_END)
  {
    var d := if i < 4 then v[i] else if i == 5 then n else 0;
    DecimalNumeral(d);
    NumeralChars(Decimal(d));
  }

  lemma ZeroField(zero: string, rest: string, first: bool, port: int)
    requires zero != "" && DigitsAndEol(zero) && FieldValue(zero) == 0 && ShiftIn(port, 0) == port
    ensures PortLoop(zero + "." + rest, first, port, 0) == PortLoop(rest, false, port, 0)
  {
    FieldBeforeDot(zero, rest, first, port);
  }

  lemma DottedPort(zero: string, digits: string, port: int)
    requires zero != "" && DigitsAndEol(zero) && FieldValue(zero) == 0 && ShiftIn(port, 0) == port
    ensures PortLoop(zero + "." + zero + "." + digits, true, port, 0) == PortLoop(digits, false, port, 0)
  {
    hide *;
    assert zero + "." + zero + "." + digits == zero + "." + (zero + "." + digits);
    ZeroField(zero, zero + "." + digits, true, port);
    ZeroField(zero, digits, false, port);
  }

  lemma LastOfDotted(n: nat)
    requires n < 256
    ensures PortLoop(Decimal(n), false, 0, 0) == Some(n)
  {
    DecimalValue(n);
    Fits(n);
    LastField(Decimal(n), 0);
    ShiftedPort(0, n);
  }

  lemma ZeroValue()
    ensures Decimal(0) != "" && DigitsAndEol(Decimal(0)) && FieldValue(Decimal(0)) == 0 && ShiftIn(0, 0) == 0
  {
    DecimalValue(0);
    assert Decimal(0) == "0";
    assert Value("0", 10, 0) == 0;
  }

  lemma ParsedFromFields(fields: seq<string>, address: nat, port: nat)
    requires |fields| == 6 && forall i :: 0 <= i < 6 ==> Free(fields[i], {','})
    requires InetAton(Join(fields[..4], '.')) == Some(address)
    requires PortLoop(fields[4] + "." + fields[5], true, 0, 0) == Some(port)
    ensures Parsed(Join(fields, ',')) == Some(Endpoint(address, port))
  {
    hide PortLoop, InetAton;
    SplitJoin(fields, ',', {','});
  }

  lemma DottedAddress(v: seq<nat>)
    requires |v| == 4 && forall i :: 0 <= i < 4 ==> v[i] < 256
    ensures InetAton(Join(Printed(v), '.')) == Some(Address(v[0], v[1], v[2], v[3]))
  {
    hide InetAton, Address;
    forall i | 0 <= i < 4 ensures Numeral(Printed(v)[i]) == Some(v[i]) { DecimalNumeral(v[i]); }
    AtonOfNumerals(Printed(v), v);
  }

  lemma DottedLineParses(v: seq<nat>, n: nat)
    requires |v| == 4 && n < 256 && forall i :: 0 <= i < 4 ==> v[i] < 256
    ensures Parsed(Join(Dotted(v, n), ',')) == Some(Endpoint(Address(v[0], v[1], v[2], v[3]), n))
  {
    hide PortLoop, InetAton, Address, Decimal, Parsed, ShiftIn, FieldValue;
    var fields := Dotted(v, n);
    forall i | 0 <= i < 6 ensures Free(fields[i], {','}) { DottedField(v, n, i); }
    assert fields[..4] == Printed(v);
    DottedAddress(v);
    ZeroValue();
    DottedPort(Decimal(0), Decimal(n), 0);
    LastOfDotted(n);
    ParsedFromFields(fields, Address(v[0], v[1], v[2], v[3]), n);
  }

  /** A dot inside the port part: the parser takes a,b,c,d,0.0,n, the recogniser does not. */
  lemma DottedLineDisagrees(v: seq<nat>, n: nat)
    requires |v| == 4 && n < 256 && forall i :: 0 <= i < 4 ==> v[i] < 256
    ensures var body := Join(Dotted(v, n), ',');
            Parsed(body) == Some(Endpoint(Address(v[0], v[1], v[2], v[3]), n)) &&
            !Recognised("PORT " + body, |"PORT " + body|)
  {
    var fields := Dotted(v, n);
    var body := Join(fields, ',');
    DottedLineParses(v, n);
    forall i | 0 <= i < 6 ensures Free(fields[i], SPACES) { DottedField(v, n, i); }
    forall i | 0 <= i < 6 ensures Free(fields[i], LINE_END) { DottedField(v, n, i); }
    JoinFree(fields, ',', SPACES);
    JoinFree(fields, ',', LINE_END);
    DotInside(fields);
    assert body + "" == body && "PORT " + body + "" == "PORT " + body;
    RecogniserAgreesWithoutBlanks("PORT ", body, "");
  }

  lemma DotInside(fields: seq<string>)
    requires |fields| == 6 && '.' in fields[4]
    ensures '.' in Join(fields, ',')
  {
    assert fields == fields[..4] + fields[4..];
    JoinConcat(fields[..4], fields[4..], ',');
    assert forall i :: 0 <= i < |fields[4]| ==> fields[4][i] in Join(fields[4..], ',');
  }
}
