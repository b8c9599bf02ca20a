/** The PORT command of FTP (section 4.1.2 of RFC 959) as utils.c reads and writes it,
    on values. The loops of utils.c are in PortCommand.dfy. */
module PortSpec {
  import opened Options
  import opened Text

  const NUL := 0 as char
  const EOL: set<char> := {'\r', '\n'}
  const LINE_END: set<char> := {'\r', '\n', NUL}
  // isspace of the C locale
  const SPACES: set<char> := {' ', '\t', '\n', 11 as char, 12 as char, '\r'}

  // An IPv4 address and a port, both in host order.
  datatype Endpoint = Endpoint(address: nat, port: nat)

  // ---- The recogniser ----

  predicate HasHexDigit(s: string) {
    exists i :: 0 <= i < |s| && IsHexDigit(s[i])
  }

  // Fields of which all but the last have a hexadecimal digit.
  predicate Valued(fields: seq<string>) {
    forall i :: 0 <= i < |fields| - 1 ==> HasHexDigit(fields[i])
  }

  // What is_port_command answers: `PORT`, any fifth character, and six fields before
  // the end of the line, separated by commas or dots.
  predicate Recognised(command: string, size: nat)
    requires size <= |command|
  {
    size >= 5 && command[..4] == "PORT" &&
    var fields := Split(Until(command[5..size], LINE_END), {',', '.'});
    |fields| == 6 && Valued(fields)
  }

  // ---- inet_aton and inet_ntoa ----

  function Numerals(parts: seq<string>): (r: Option<seq<nat>>)
    ensures r.Some? ==> |r.value| == |parts| && forall i :: 0 <= i < |parts| ==> Numeral(parts[i]) == Some(r.value[i])
    ensures r.None? ==> exists i :: 0 <= i < |parts| && Numeral(parts[i]).None?
  {
    if parts == [] then Some([])
    else match (Numeral(parts[0]), Numerals(parts[1..]))
      case (Some(v), Some(rest)) => Some([v] + rest)
      case _ => None
  }

  // One to four numbers, the last of which fills the rest of the address.
  function Assemble(v: seq<nat>): Option<nat> {
    if |v| == 1 && v[0] < 0x1_0000_0000 then Some(v[0])
    else if |v| == 2 && v[0] < 256 && v[1] < 0x100_0000 then Some(v[0] * 0x100_0000 + v[1])
    else if |v| == 3 && v[0] < 256 && v[1] < 256 && v[2] < 0x1_0000 then Some((v[0] * 256 + v[1]) * 0x1_0000 + v[2])
    else if |v| == 4 && v[0] < 256 && v[1] < 256 && v[2] < 256 && v[3] < 256 then Some(Address(v[0], v[1], v[2], v[3]))
    else None
  }

  function Address(a: nat, b: nat, c: nat, d: nat): nat {
    ((a * 256 + b) * 256 + c) * 256 + d
  }

  // inet_aton ignores everything from the first space on.
  function InetAton(s: string): Option<nat> {
    match Numerals(Split(Until(s, SPACES), {'.'}))
    case None => None
    case Some(v) => Assemble(v)
  }

  function Bytes(address: nat): (b: seq<nat>)
    requires address < 0x1_0000_0000
    ensures |b| == 4 && Address(b[0], b[1], b[2], b[3]) == address
    ensures forall i :: 0 <= i < 4 ==> b[i] < 256
  {
    [address / 256 / 256 / 256, address / 256 / 256 % 256, address / 256 % 256, address % 256]
  }

  function Printed(numbers: seq<nat>): seq<string> {
    seq(|numbers|, i requires 0 <= i < |numbers| => Decimal(numbers[i]))
  }

  function InetNtoa(address: nat): string
    requires address < 0x1_0000_0000
  {
    Join(Printed(Bytes(address)), '.')
  }

  // ---- The parser ----

  const UNSIGNED_LONG: nat := 0x1_0000_0000_0000_0000

  // Conversion to a signed 16-bit short.
  function Short(x: int): int {
    (x + 0x8000) % 0x1_0000 - 0x8000
  }

  // `port <<= 8; port += val;`
  function ShiftIn(port: int, val: nat): int {
    Short(Short(port * 256) + val)
  }

  // The digit loop over the port text; `first` holds at portstr itself. The result is
  // the 16-bit pattern that htons sends.
  function PortLoop(text: string, first: bool, port: int, val: nat): Option<nat> {
    if text == "" then
      if val > 0xFF || port > 0xFF then None else Some(ShiftIn(port, val) % 0x1_0000)
    else if !IsDigit(text[0]) then
      if text[0] in EOL then PortLoop(text[1..], false, port, val)
      else if first || text[0] != '.' || val > 0xFF then None
      else PortLoop(text[1..], false, ShiftIn(port, val), 0)
    else PortLoop(text[1..], false, port, (val * 10 + DigitOf(text[0])) % UNSIGNED_LONG)
  }

  // What get_address_from_port_command answers for the argument text.
  function Parsed(text: string): Option<Endpoint> {
    var fields := Split(text, {','});
    if |fields| != 6 then None
    else match (InetAton(Join(fields[..4], '.')), PortLoop(fields[4] + "." + fields[5], true, 0, 0))
      case (Some(address), Some(port)) => Some(Endpoint(address, port))
      case _ => None
  }

  // ---- The printer ----

  function PortLine(e: Endpoint): string
    requires e.address < 0x1_0000_0000
  {
    "PORT " + Replace(InetNtoa(e.address), '.', ',') + "," + Decimal(e.port / 256) + "," + Decimal(e.port % 256) + "\n"
  }

  // ---- The signed 16-bit arithmetic ----

  predicate DigitsAndEol(s: string) {
    forall i :: 0 <= i < |s| ==> IsDigit(s[i]) || s[i] in EOL
  }

  // Reading digits modulo the width of `val`.
  lemma {:induction false} DigitLoop(a: string, rest: string, first: bool, port: int, before: nat)
    requires DigitsAndEol(a)
    ensures PortLoop(a + rest, first, port, before % UNSIGNED_LONG)
         == PortLoop(rest, first && a == "", port, Value(a, 10, before) % UNSIGNED_LONG)
  {
    if a == "" {
      assert a + rest == rest;
    } else {
      assert (a + rest)[1..] == a[1..] + rest;
      if IsDigit(a[0]) {
        var next := before * 10 + DigitOf(a[0]);
        Wraps(before, DigitOf(a[0]));
        DigitLoop(a[1..], rest, false, port, next);
      } else {
        assert DigitOf(a[0]) == 16;
        DigitLoop(a[1..], rest, false, port, before);
      }
    }
  }

  lemma Wraps(v: nat, d: nat)
    ensures (v % UNSIGNED_LONG * 10 + d) % UNSIGNED_LONG == (v * 10 + d) % UNSIGNED_LONG
  {
    var q, r := v / UNSIGNED_LONG, v % UNSIGNED_LONG;
    assert v * 10 + d == r * 10 + d + (q * 10) * UNSIGNED_LONG;
    WrapsBy(r * 10 + d, q * 10);
  }

  lemma {:induction false} WrapsBy(x: nat, k: nat)
    ensures (x + k * UNSIGNED_LONG) % UNSIGNED_LONG == x % UNSIGNED_LONG
  {
    if k > 0 {
      WrapsBy(x, k - 1);
      assert x + k * UNSIGNED_LONG == (x + (k - 1) * UNSIGNED_LONG) + UNSIGNED_LONG;
    }
  }

  lemma Fits(v: nat)
    requires v < 256
    ensures v % UNSIGNED_LONG == v
  {
  }

  lemma ShiftedPort(p: nat, q: nat)
    requires p < 256 && q < 256
    ensures ShiftIn(0, p) == p && ShiftIn(p, q) % 0x1_0000 == p * 256 + q
  {
  }

  // The value of a field as the digit loop leaves it in `val`.
  function FieldValue(s: string): nat {
    Value(s, 10, 0) % UNSIGNED_LONG
  }

  lemma FieldBeforeDot(p: string, q: string, first: bool, port: int)
    requires DigitsAndEol(p)
    ensures PortLoop(p + "." + q, first, port, 0) ==
            if (first ==> p != "") && FieldValue(p) <= 0xFF
            then PortLoop(q, false, ShiftIn(port, FieldValue(p)), 0) else None
  {
    assert p + "." + q == p + ("." + q);
    assert ("." + q)[0] == '.' && ("." + q)[1..] == q;
    DigitLoop(p, "." + q, first, port, 0);
  }

  lemma LastField(q: string, port: int)
    requires DigitsAndEol(q)
    ensures PortLoop(q, false, port, 0) ==
            if FieldValue(q) > 0xFF || port > 0xFF then None else Some(ShiftIn(port, FieldValue(q)) % 0x1_0000)
  {
    DigitLoop(q, "", false, port, 0);
    assert q + "" == q;
  }

  lemma {:induction false} OtherCharacter(text: string, i: nat, first: bool, port: int, val: nat)
    requires i < |text| && !IsDigit(text[i]) && text[i] !in EOL && text[i] != '.'
    ensures PortLoop(text, first, port, val) == None
  {
    if i > 0 {
      if IsDigit(text[0]) {
        OtherCharacter(text[1..], i - 1, false, port, (val * 10 + DigitOf(text[0])) % UNSIGNED_LONG);
      } else if text[0] in EOL {
        OtherCharacter(text[1..], i - 1, false, port, val);
      } else if !first && text[0] == '.' && val <= 0xFF {
        OtherCharacter(text[1..], i - 1, false, ShiftIn(port, val), 0);
      }
    }
  }

  /** The port loop over any two fields without dots: accepted exactly when there are
      only digits and line ends, the first field is there, and both values, modulo the
      width of `val`, fit a byte; the short overflows to the right 16 bits. */
  lemma PortLoopMeaning(p: string, q: string)
    requires Free(p, {'.'}) && Free(q, {'.'})
    ensures PortLoop(p + "." + q, true, 0, 0) ==
            if DigitsAndEol(p) && DigitsAndEol(q) && p != "" && FieldValue(p) <= 0xFF && FieldValue(q) <= 0xFF
            then Some(FieldValue(p) * 256 + FieldValue(q)) else None
  {
    hide PortLoop, ShiftIn, FieldValue;
    if DigitsAndEol(p) && DigitsAndEol(q) {
      PortLoopOfDigits(p, q);
    } else if !DigitsAndEol(p) {
      var i: nat :| i < |p| && !IsDigit(p[i]) && p[i] !in EOL;
      assert (p + "." + q)[i] == p[i];
      OtherCharacter(p + "." + q, i, true, 0, 0);
    } else {
      var i: nat :| i < |q| && !IsDigit(q[i]) && q[i] !in EOL;
      assert (p + "." + q)[|p| + 1 + i] == q[i];
      OtherCharacter(p + "." + q, |p| + 1 + i, true, 0, 0);
    }
  }

  lemma PortLoopOfDigits(p: string, q: string)
    requires DigitsAndEol(p) && DigitsAndEol(q)
    ensures PortLoop(p + "." + q, true, 0, 0) ==
            if p != "" && FieldValue(p) <= 0xFF && FieldValue(q) <= 0xFF then Some(FieldValue(p) * 256 + FieldValue(q))
            else None
  {
    hide PortLoop, ShiftIn, FieldValue;
    FieldBeforeDot(p, q, true, 0);
    if FieldValue(p) <= 0xFF {
      ShiftedPort(FieldValue(p), 0);
      LastField(q, FieldValue(p));
      if FieldValue(q) <= 0xFF { ShiftedPort(FieldValue(p), FieldValue(q)); }
    }
  }
}
