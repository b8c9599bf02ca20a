/** The numbers of the PORT codec in plain figures: which characters, which values and
    which limits it has. */
module PortNumbers {
  import opened Options
  import opened Text
  import opened PortSpec
  import opened PortTheorems

  // ---- Characters ----

  /** The classes of characters that the codec tells apart. */
  lemma Characters(c: char)
    ensures IsDigit(c) <==> '0' <= c <= '9'
    ensures IsHexDigit(c) <==> '0' <= c <= '9' || 'a' <= c <= 'f' || 'A' <= c <= 'F'
    ensures c in EOL <==> c == '\r' || c == '\n'
    ensures c in LINE_END <==> c == '\r' || c == '\n' || c == 0 as char
    ensures c in SPACES <==> c == ' ' || 9 as char <= c <= 13 as char
  {
  }

  // Digits and the letters of hexadecimal numbers, as isxdigit knows them.
  predicate HexCharacter(c: char) {
    '0' <= c <= '9' || 'a' <= c <= 'f' || 'A' <= c <= 'F'
  }

  // What such a character stands for.
  function Figure(c: char): nat
    requires HexCharacter(c)
  {
    if c <= '9' then c as int - 48 else if c <= 'F' then c as int - 65 + 10 else c as int - 97 + 10
  }

  predicate HasHexCharacter(s: string) {
    exists k :: 0 <= k < |s| && HexCharacter(s[k])
  }

  /** Six fields make a recognised command exactly when each of the first five has a
      hexadecimal digit. */
  lemma FieldsRecognisedExactly(fields: seq<string>)
    requires |fields| == 6 && forall i :: 0 <= i < 6 ==> Free(fields[i], {',', '.'}) && Free(fields[i], LINE_END)
    ensures var chunk := "PORT " + Join(fields, ',');
            Recognised(chunk, |chunk|) <==> forall i :: 0 <= i < 5 ==> HasHexCharacter(fields[i])
  {
    hide Join, Split, HasHexDigit, HasHexCharacter;
    var body := Join(fields, ',');
    JoinFree(fields, ',', LINE_END);
    SplitJoin(fields, ',', {',', '.'});
    UntilAt(body, "", LINE_END);
    assert body + "" == body && ("PORT " + body)[5..|"PORT " + body|] == body;
    forall i | 0 <= i < 6 ensures HasHexDigit(fields[i]) <==> HasHexCharacter(fields[i]) { SomeHexDigit(fields[i]); }
  }

  lemma SomeHexDigit(s: string)
    ensures HasHexDigit(s) <==> HasHexCharacter(s)
  {
    forall k | 0 <= k < |s| ensures IsHexDigit(s[k]) <==> HexCharacter(s[k]) {}
  }

  // ---- Numerals ----

  lemma ValueOfOneMore(s: string, c: char, base: nat)
    requires DigitOf(c) < base
    ensures Value(s + [c], base, 0) == Value(s, base, 0) * base + DigitOf(c)
  {
    ValueConcat(s, [c], base, 0);
    assert [c][1..] == "";
  }

  /** What a hexadecimal numeral denotes: each further character counts 16 times what was
      there before, and what it stands for. */
  lemma HexNumeral(s: string, c: char)
    requires HexCharacter(c) && forall i :: 0 <= i < |s| ==> HexCharacter(s[i])
    ensures Numeral("0x" + [c]) == Numeral("0X" + [c]) == Some(Figure(c))
    ensures s != "" ==> Numeral("0x" + s).Some? && Numeral("0X" + s) == Numeral("0x" + s)
    ensures s != "" ==> Numeral("0x" + (s + [c])) == Some(Numeral("0x" + s).value * 16 + Figure(c))
  {
    hide Value, Numeral;
    FigureOf(c);
    forall i | 0 <= i < |s| ensures DigitOf(s[i]) < 16 { FigureOf(s[i]); }
    ValueOfOneMore("", c, 16);
    NoDigits();
    assert "" + [c] == [c];
    HexRead([c], 'x');
    HexRead([c], 'X');
    if s != "" {
      HexRead(s, 'x');
      HexRead(s, 'X');
      HexRead(s + [c], 'x');
      ValueOfOneMore(s, c, 16);
    }
  }

  lemma FigureOf(c: char)
    requires HexCharacter(c)
    ensures DigitOf(c) == Figure(c) < 16
  {
  }

  lemma HexRead(s: string, x: char)
    requires s != "" && AllDigits(s, 16) && (x == 'x' || x == 'X')
    ensures Numeral(['0', x] + s) == Some(Value(s, 16, 0))
    ensures x == 'x' ==> ['0', x] + s == "0x" + s
    ensures x == 'X' ==> ['0', x] + s == "0X" + s
  {
    assert (['0', x] + s)[2..] == s;
  }

  /** What the other numerals denote: behind a zero each further digit counts 8 times what
      was there before, else 10 times. */
  lemma OtherNumeral(s: string, c: char)
    requires s != "" && '0' <= c <= '9' && forall i :: 0 <= i < |s| ==> '0' <= s[i] <= '9'
    requires s[0] == '0' ==> c <= '7' && forall i :: 0 <= i < |s| ==> s[i] <= '7'
    ensures Numeral(s).Some? && Numeral([c]) == Some(c as int - '0' as int)
    ensures Numeral(s + [c]) ==
              Some(Numeral(s).value * (if s[0] == '0' then 8 else 10) + (c as int - '0' as int))
  {
    hide Value;
    var base := if s[0] == '0' then 8 else 10;
    ValueOfOneMore("", c, if c == '0' then 8 else 10);
    assert "" + [c] == [c] && Value("", 8, 0) == 0 && Value("", 10, 0) == 0 by { NoDigits(); }
    ValueOfOneMore(s, c, base);
    assert |s + [c]| > 1 ==> IsDigit((s + [c])[1]);
  }

  lemma NoDigits()
    ensures Value("", 8, 0) == 0 && Value("", 10, 0) == 0 && Value("", 16, 0) == 0
  {
  }

  // ---- Addresses ----

  // The forms of an address, with the weights of their numbers and the limits of these.
  function AddressOf(v: seq<nat>): Option<nat>
    requires 1 <= |v| <= 4
  {
    if |v| == 1 then
      if v[0] <= 4294967295 then Some(v[0]) else None
    else if |v| == 2 then
      if v[0] <= 255 && v[1] <= 16777215 then Some(v[0] * 16777216 + v[1]) else None
    else if |v| == 3 then
      if v[0] <= 255 && v[1] <= 255 && v[2] <= 65535 then Some(v[0] * 16777216 + v[1] * 65536 + v[2]) else None
    else
      if v[0] <= 255 && v[1] <= 255 && v[2] <= 255 && v[3] <= 255
      then Some(v[0] * 16777216 + v[1] * 65536 + v[2] * 256 + v[3]) else None
  }

  lemma Assembled(v: seq<nat>)
    requires 1 <= |v| <= 4
    ensures Assemble(v) == AddressOf(v)
  {
    if |v| == 4 { AddressWeights(v[0], v[1], v[2], v[3]); }
  }

  /** inet_aton takes one to four numbers, with those weights and limits. */
  lemma AddressForms(parts: seq<string>, v: seq<nat>)
    requires 1 <= |parts| == |v| <= 4
    requires forall i :: 0 <= i < |parts| ==> Numeral(parts[i]) == Some(v[i])
    ensures InetAton(Join(parts, '.')) == AddressOf(v)
  {
    hide Numeral, Join, Assemble, AddressOf;
    forall i | 0 <= i < |parts| ensures Free(parts[i], SPACES) && Free(parts[i], {'.'}) { NumeralChars(parts[i]); }
    AtonText(parts);
    NumeralsOf(parts, v);
    Assembled(v);
  }

  /** The text behind the first blank is ignored. */
  lemma AddressBeforeBlank(s: string, c: char, rest: string)
    requires c == ' ' || 9 as char <= c <= 13 as char
    ensures InetAton(s + [c] + rest) == InetAton(s)
  {
    hide Split, Numerals, Assemble;
    assert s + [c] + rest == s + ([c] + rest);
    UntilPrefix(s, [c] + rest, SPACES);
  }

  /** inet_ntoa prints the four bytes, the first of weight 16777216. */
  lemma PrintedAddress(a: nat, b: nat, c: nat, d: nat)
    requires a <= 255 && b <= 255 && c <= 255 && d <= 255
    ensures var address := a * 16777216 + b * 65536 + c * 256 + d;
            address < 0x1_0000_0000 &&
            InetNtoa(address) == Decimal(a) + "." + Decimal(b) + "." + Decimal(c) + "." + Decimal(d)
  {
    hide Decimal, PortSpec.Bytes, Join, Printed;
    BytesOf(a, b, c, d);
    PrintedOfFour(a, b, c, d);
  }

  lemma PrintedOfFour(a: nat, b: nat, c: nat, d: nat)
    ensures Join(Printed([a, b, c, d]), '.') == Decimal(a) + "." + Decimal(b) + "." + Decimal(c) + "." + Decimal(d)
  {
    hide Decimal, Join;
    JoinOfFour(Decimal(a), Decimal(b), Decimal(c), Decimal(d));
    assert Printed([a, b, c, d]) == [Decimal(a), Decimal(b), Decimal(c), Decimal(d)];
  }

  lemma BytesOf(a: nat, b: nat, c: nat, d: nat)
    requires a <= 255 && b <= 255 && c <= 255 && d <= 255
    ensures var address := a * 16777216 + b * 65536 + c * 256 + d;
            address < 0x1_0000_0000 && PortSpec.Bytes(address) == [a, b, c, d]
  {
    hide PortSpec.Bytes, Address;
    AddressWeights(a, b, c, d);
    AddressInjective(PortSpec.Bytes(a * 16777216 + b * 65536 + c * 256 + d), [a, b, c, d]);
  }

  lemma AddressWeights(a: nat, b: nat, c: nat, d: nat)
    ensures Address(a, b, c, d) == a * 16777216 + b * 65536 + c * 256 + d
  {
  }

  lemma JoinOfFour(p: string, q: string, r: string, s: string)
    ensures Join([p, q, r, s], '.') == p + "." + q + "." + r + "." + s
  {
    assert [p, q, r, s][1..] == [q, r, s] && [q, r, s][1..] == [r, s] && [r, s][1..] == [s];
    assert Join([r, s], '.') == r + "." + s;
    assert Join([q, r, s], '.') == q + "." + (r + "." + s);
  }

  /** The line that is printed, figure by figure. */
  lemma PrintedLine(a: nat, b: nat, c: nat, d: nat, port: nat)
    requires a <= 255 && b <= 255 && c <= 255 && d <= 255 && port <= 65535
    ensures var address := a * 16777216 + b * 65536 + c * 256 + d;
            address < 0x1_0000_0000 &&
            PortLine(Endpoint(address, port)) ==
              "PORT " + Decimal(a) + "," + Decimal(b) + "," + Decimal(c) + "," + Decimal(d) + "," +
              Decimal(port / 256) + "," + Decimal(port % 256) + "\n"
  {
    hide Decimal, InetNtoa;
    PrintedAddress(a, b, c, d);
    forall n ensures Free(Decimal(n), {'.'}) {
      DecimalValue(n);
      DigitsOnly(Decimal(n));
    }
    Commas(Decimal(a), Decimal(b), Decimal(c), Decimal(d));
    var text := Decimal(a) + "," + Decimal(b) + "," + Decimal(c) + "," + Decimal(d);
    assert "PORT " + text == "PORT " + Decimal(a) + "," + Decimal(b) + "," + Decimal(c) + "," + Decimal(d);
  }

  lemma Commas(p: string, q: string, r: string, s: string)
    requires Free(p, {'.'}) && Free(q, {'.'}) && Free(r, {'.'}) && Free(s, {'.'})
    ensures Replace(p + "." + q + "." + r + "." + s, '.', ',') == p + "," + q + "," + r + "," + s
  {
  }

  // ---- Ports ----

  /** The limits of the two numbers of a port: up to 255 each is accepted, from 256 up to
      the width of `unsigned long` it is rejected. */
  lemma PortNumbersExactly(p: string, q: string)
    requires p != "" && q != "" && AllDigits(p, 10) && AllDigits(q, 10)
    ensures Value(p, 10, 0) <= 255 && Value(q, 10, 0) <= 255 ==>
              PortLoop(p + "." + q, true, 0, 0) == Some(Value(p, 10, 0) * 256 + Value(q, 10, 0))
    ensures 255 < Value(p, 10, 0) < 0x1_0000_0000_0000_0000 || 255 < Value(q, 10, 0) < 0x1_0000_0000_0000_0000 ==>
              PortLoop(p + "." + q, true, 0, 0) == None
  {
    hide PortLoop, ShiftIn, Value;
    PortLoopOfDigits(p, q);
    if Value(p, 10, 0) < 0x1_0000_0000_0000_0000 { Below(Value(p, 10, 0)); }
    if Value(q, 10, 0) < 0x1_0000_0000_0000_0000 { Below(Value(q, 10, 0)); }
  }

  lemma Below(n: nat)
    requires n < 0x1_0000_0000_0000_0000
    ensures n % UNSIGNED_LONG == n
  {
  }

  /** Three numbers with dots between, which five commas and a dot can bring: the sign of the
      16-bit variable decides. From 128 up the first number makes it negative and slips
      through the check of its range; the port is then that of the other two. */
  lemma ThreePortNumbersExactly(p: string, q: string, r: string)
    requires p != "" && q != "" && r != "" && AllDigits(p, 10) && AllDigits(q, 10) && AllDigits(r, 10)
    requires Value(p, 10, 0) <= 255 && Value(q, 10, 0) <= 255 && Value(r, 10, 0) <= 255
    ensures PortLoop(p + "." + (q + "." + r), true, 0, 0) ==
              if Value(p, 10, 0) == 0 || Value(p, 10, 0) >= 128
              then Some(Value(q, 10, 0) * 256 + Value(r, 10, 0)) else None
  {
    hide PortLoop, ShiftIn, Value;
    var a, b, c := Value(p, 10, 0), Value(q, 10, 0), Value(r, 10, 0);
    Below(a);
    Below(b);
    Below(c);
    FieldBeforeDot(p, q + "." + r, true, 0);
    ShiftedPort(a, 0);
    FieldBeforeDot(q, r, false, a);
    LastField(r, ShiftIn(a, b));
    ThirdShift(a, b, c);
  }

  lemma ShortRange(x: int)
    ensures -32768 <= x < 32768 ==> Short(x) == x
    ensures 32768 <= x < 65536 ==> Short(x) == x - 65536
  {
  }

  lemma {:induction false} Around(x: int, k: int)
    ensures (x + k * 65536) % 65536 == x % 65536
    decreases if k < 0 then -k else k
  {
    if k > 0 {
      Around(x, k - 1);
      assert x + k * 65536 == (x + (k - 1) * 65536) + 65536;
    } else if k < 0 {
      Around(x, k + 1);
      assert x + k * 65536 == (x + (k + 1) * 65536) - 65536;
    }
  }

  // A short is its number up to a multiple of 65536.
  lemma ShortWraps(x: int) returns (k: int)
    ensures Short(x) == x + k * 65536
  {
    k := -((x + 32768) / 65536);
  }

  lemma SecondShift(a: nat, b: nat)
    requires a <= 255 && b <= 255
    ensures ShiftIn(a, b) == if a >= 128 then a * 256 + b - 65536 else a * 256 + b
  {
    hide Short;
    ShortRange(a * 256);
    ShortRange(Short(a * 256) + b);
  }

  // One more shift, of any short.
  lemma AnyShift(x: int, c: nat) returns (n: int)
    ensures ShiftIn(x, c) == x * 256 + c + n * 65536
  {
    hide Short;
    var j := ShortWraps(x * 256);
    var k := ShortWraps(Short(x * 256) + c);
    n := j + k;
  }

  lemma ThirdShift(a: nat, b: nat, c: nat)
    requires a <= 255 && b <= 255 && c <= 255
    ensures ShiftIn(a, b) == if a >= 128 then a * 256 + b - 65536 else a * 256 + b
    ensures ShiftIn(ShiftIn(a, b), c) % 65536 == b * 256 + c
  {
    hide ShiftIn;
    SecondShift(a, b);
    var n := AnyShift(ShiftIn(a, b), c);
    Around(b * 256 + c, n + if a >= 128 then a - 256 else a);
  }

  /** No line with a number from 256 up in its port is parsed, whatever its address. */
  lemma LargePortIsRejected(fields: seq<string>, eol: string)
    requires |fields| == 6 && Eol(eol) && forall i :: 0 <= i < 6 ==> Free(fields[i], {','})
    requires forall i :: 4 <= i < 6 ==> fields[i] != "" && AllDigits(fields[i], 10)
    requires exists i :: 4 <= i < 6 && 255 < Value(fields[i], 10, 0) < 0x1_0000_0000_0000_0000
    ensures Parsed(Join(fields, ',') + eol) == None
  {
    hide InetAton, PortLoop, Parsed, Join, Value, ShiftIn;
    ParsedOfLine(fields, eol);
    var p, q := fields[4], fields[5];
    ValueConcat(q, eol, 10, 0);
    EolHasNoValue(eol, Value(q, 10, 0));
    PortLoopOfDigits(p, q + eol);
    if Value(p, 10, 0) < 0x1_0000_0000_0000_0000 { Below(Value(p, 10, 0)); }
    if Value(q, 10, 0) < 0x1_0000_0000_0000_0000 { Below(Value(q, 10, 0)); }
  }

  /** Nor is a line with an address of four numbers of which one is above 255. */
  lemma LargeByteIsRejected(fields: seq<string>, v: seq<nat>, eol: string)
    requires |fields| == 6 && |v| == 4 && Eol(eol) && forall i :: 0 <= i < 6 ==> Free(fields[i], {','})
    requires forall i :: 0 <= i < 4 ==> Numeral(fields[i]) == Some(v[i])
    requires exists i :: 0 <= i < 4 && v[i] > 255
    ensures Parsed(Join(fields, ',') + eol) == None
  {
    hide InetAton, PortLoop, Parsed, Join, Numeral;
    ParsedOfLine(fields, eol);
    assert forall i :: 0 <= i < 4 ==> Numeral(fields[..4][i]) == Some(v[i]);
    AddressForms(fields[..4], v);
  }
}
