/** Strings as the codec sees them: fields between separators, and numerals. */
module Text {
  import opened Options

  predicate Free(s: string, stop: set<char>) {
    forall i :: 0 <= i < |s| ==> s[i] !in stop
  }

  // The text before the first character of `stop`.
  function Until(s: string, stop: set<char>): (r: string)
    ensures r <= s && Free(r, stop)
    ensures r == s || s[|r|] in stop
  {
    if s == "" || s[0] in stop then "" else [s[0]] + Until(s[1..], stop)
  }

  lemma {:induction false} UntilAt(a: string, b: string, stop: set<char>)
    requires Free(a, stop) && (b == "" || b[0] in stop)
    ensures Until(a + b, stop) == a
  {
    if a == "" {
      assert a + b == b;
    } else {
      assert (a + b)[1..] == a[1..] + b;
      UntilAt(a[1..], b, stop);
    }
  }

  lemma {:induction false} UntilPrefix(a: string, b: string, stop: set<char>)
    requires b == "" || b[0] in stop
    ensures Until(a + b, stop) == Until(a, stop)
  {
    if a == "" {
      assert a + b == b;
    } else {
      assert (a + b)[1..] == a[1..] + b;
      UntilPrefix(a[1..], b, stop);
    }
  }

  function CountIn(s: string, seps: set<char>): nat {
    if s == "" then 0 else (if s[0] in seps then 1 else 0) + CountIn(s[1..], seps)
  }

  lemma {:induction false} CountConcat(a: string, b: string, seps: set<char>)
    ensures CountIn(a + b, seps) == CountIn(a, seps) + CountIn(b, seps)
  {
    if a == "" {
      assert a + b == b;
    } else {
      assert (a + b)[1..] == a[1..] + b;
      CountConcat(a[1..], b, seps);
    }
  }

  // ---- Fields ----

  function Split(s: string, seps: set<char>): (fields: seq<string>)
    ensures |fields| == 1 + CountIn(s, seps)
    ensures forall i :: 0 <= i < |fields| ==> Free(fields[i], seps)
  {
    if s == "" then [""]
    else
      var rest := Split(s[1..], seps);
      if s[0] in seps then [""] + rest else [[s[0]] + rest[0]] + rest[1..]
  }

  function Join(fields: seq<string>, sep: char): string
    requires fields != []
  {
    if |fields| == 1 then fields[0] else fields[0] + [sep] + Join(fields[1..], sep)
  }

  lemma {:induction false} SplitField(f: string, rest: string, sep: char, seps: set<char>)
    requires Free(f, seps) && sep in seps
    ensures Split(f + [sep] + rest, seps) == [f] + Split(rest, seps)
  {
    var s := f + [sep] + rest;
    if f == "" {
      assert s[1..] == rest;
    } else {
      assert s[1..] == f[1..] + [sep] + rest;
      SplitField(f[1..], rest, sep, seps);
      assert [f[0]] + f[1..] == f;
    }
  }

  lemma {:induction false} SplitFree(f: string, seps: set<char>)
    requires Free(f, seps)
    ensures Split(f, seps) == [f] && CountIn(f, seps) == 0
  {
    if f != "" {
      SplitFree(f[1..], seps);
      assert [f[0]] + f[1..] == f;
    }
  }

  /** Joining fields without the separator and splitting again gives the fields back. */
  lemma {:induction false} SplitJoin(fields: seq<string>, sep: char, seps: set<char>)
    requires fields != [] && sep in seps && forall i :: 0 <= i < |fields| ==> Free(fields[i], seps)
    ensures Split(Join(fields, sep), seps) == fields
  {
    if |fields| == 1 {
      SplitFree(fields[0], seps);
    } else {
      SplitJoin(fields[1..], sep, seps);
      SplitField(fields[0], Join(fields[1..], sep), sep, seps);
    }
  }

  /** Splitting at one separator loses nothing. */
  lemma {:induction false} JoinSplit(s: string, sep: char)
    ensures Join(Split(s, {sep}), sep) == s
  {
    if s != "" {
      var rest := Split(s[1..], {sep});
      JoinSplit(s[1..], sep);
      if s[0] == sep {
        assert Split(s, {sep})[1..] == rest;
      } else {
        assert ([[s[0]] + rest[0]] + rest[1..])[1..] == rest[1..];
      }
    }
  }

  lemma {:induction false} JoinConcat(a: seq<string>, b: seq<string>, sep: char)
    requires a != [] && b != []
    ensures Join(a + b, sep) == Join(a, sep) + [sep] + Join(b, sep)
  {
    if |a| == 1 {
      assert (a + b)[1..] == b;
    } else {
      assert (a + b)[1..] == a[1..] + b;
      JoinConcat(a[1..], b, sep);
    }
  }

  function Replace(s: string, from: char, to: char): string {
    seq(|s|, i requires 0 <= i < |s| => if s[i] == from then to else s[i])
  }

  lemma {:induction false} ReplaceJoin(fields: seq<string>, from: char, to: char)
    requires fields != [] && forall i :: 0 <= i < |fields| ==> Free(fields[i], {from})
    ensures Replace(Join(fields, from), from, to) == Join(fields, to)
  {
    if |fields| > 1 {
      ReplaceJoin(fields[1..], from, to);
      var rest := Join(fields[1..], from);
      assert Replace(fields[0] + [from] + rest, from, to) == fields[0] + [to] + Replace(rest, from, to);
    }
  }

  // More separators make more fields.
  lemma {:induction false} CountMore(s: string, a: char, b: char)
    requires a != b
    ensures CountIn(s, {a, b}) == CountIn(s, {a}) + CountIn(s, {b})
    ensures CountIn(s, {b}) == 0 <==> b !in s
    ensures b !in s ==> Split(s, {a, b}) == Split(s, {a})
  {
    if s != "" { CountMore(s[1..], a, b); }
  }

  // ---- Numerals ----

  // The value of a digit of any base up to 16; 16 for other characters.
  function DigitOf(c: char): nat {
    if '0' <= c <= '9' then c as int - '0' as int
    else if 'a' <= c <= 'f' then c as int - 'a' as int + 10
    else if 'A' <= c <= 'F' then c as int - 'A' as int + 10
    else 16
  }

  predicate IsDigit(c: char) { '0' <= c <= '9' }

  predicate IsHexDigit(c: char) { DigitOf(c) < 16 }

  predicate AllDigits(s: string, base: nat) {
    forall i :: 0 <= i < |s| ==> DigitOf(s[i]) < base
  }

  // The number that the digits of `s` spell after `before`; other characters do not count.
  function Value(s: string, base: nat, before: nat): nat {
    if s == "" then before
    else Value(s[1..], base, if DigitOf(s[0]) < base then before * base + DigitOf(s[0]) else before)
  }

  lemma {:induction false} ValueConcat(a: string, b: string, base: nat, before: nat)
    ensures Value(a + b, base, before) == Value(b, base, Value(a, base, before))
  {
    if a == "" {
      assert a + b == b;
    } else {
      assert (a + b)[1..] == a[1..] + b;
      ValueConcat(a[1..], b, base, if DigitOf(a[0]) < base then before * base + DigitOf(a[0]) else before);
    }
  }

  // printf's %d
  function Decimal(n: nat): string {
    (if n < 10 then "" else Decimal(n / 10)) + [('0' as int + n % 10) as char]
  }

  /** Decimal numerals denote what was printed, and carry no leading zero. */
  lemma {:induction false} DecimalValue(n: nat)
    ensures AllDigits(Decimal(n), 10) && Value(Decimal(n), 10, 0) == n
    ensures |Decimal(n)| > 1 ==> Decimal(n)[0] != '0'
    ensures n < 1000 ==> |Decimal(n)| <= 3
  {
    var last := [('0' as int + n % 10) as char];
    if n < 10 {
      assert Decimal(n) == last;
    } else {
      DecimalValue(n / 10);
      ValueConcat(Decimal(n / 10), last, 10, 0);
      if n / 10 < 10 { assert |Decimal(n / 10)| == 1; }
      if n < 1000 && n / 10 >= 10 { assert n / 100 < 10; assert |Decimal(n / 10 / 10)| == 1; }
    }
  }

  // strtoul with base 0, as inet_aton uses it: hexadecimal after 0x, octal after 0.
  function Numeral(s: string): Option<nat> {
    if s == "" || !IsDigit(s[0]) then None
    else if |s| > 2 && s[0] == '0' && (s[1] == 'x' || s[1] == 'X') && AllDigits(s[2..], 16) then
      Some(Value(s[2..], 16, 0))
    else if s[0] == '0' && AllDigits(s, 8) then Some(Value(s, 8, 0))
    else if s[0] != '0' && AllDigits(s, 10) then Some(Value(s, 10, 0))
    else None
  }

  lemma DecimalNumeral(n: nat)
    ensures Numeral(Decimal(n)) == Some(n)
  {
    DecimalValue(n);
    if Decimal(n)[0] == '0' {
      assert Decimal(n) == "0";
      assert Value("0", 8, 0) == 0 && Value("0", 10, 0) == 0;
    }
  }

  // ---- Leading zeros ----

  lemma {:induction false} ValueGrows(s: string, before: nat)
    ensures Value(s, 10, before) >= before
  {
    if s != "" {
      ValueGrows(s[1..], before * 10 + DigitOf(s[0]));
      ValueGrows(s[1..], before);
    }
  }

  lemma {:induction false} LargeDigit(s: string, i: nat, before: nat)
    requires i < |s| && 8 <= DigitOf(s[i]) < 10
    ensures Value(s, 10, before) >= 8
  {
    if i == 0 {
      ValueGrows(s[1..], before * 10 + DigitOf(s[0]));
    } else if DigitOf(s[0]) < 10 {
      LargeDigit(s[1..], i - 1, before * 10 + DigitOf(s[0]));
    } else {
      LargeDigit(s[1..], i - 1, before);
    }
  }

  lemma {:induction false} OctalBelow(s: string, a: nat, b: nat)
    requires AllDigits(s, 8) && a <= b
    ensures Value(s, 8, a) <= Value(s, 10, b) && (a < b ==> Value(s, 8, a) < Value(s, 10, b))
  {
    if s != "" { OctalBelow(s[1..], a * 8 + DigitOf(s[0]), b * 10 + DigitOf(s[0])); }
  }

  lemma {:induction false} OctalIsDecimal(s: string)
    requires AllDigits(s, 8)
    ensures Value(s, 8, 0) == Value(s, 10, 0) <==> Value(s, 10, 0) < 8
  {
    if s != "" {
      var d, rest := DigitOf(s[0]), s[1..];
      if d == 0 {
        OctalIsDecimal(rest);
      } else if rest != "" {
        OctalBelow(rest[1..], d * 8 + DigitOf(rest[0]), d * 10 + DigitOf(rest[0]));
        ValueGrows(rest[1..], d * 10 + DigitOf(rest[0]));
      }
    }
  }

  /** Decimal digits are read as what they say exactly when they do not begin with a
      zero, or are worth less than 8; and never as more. */
  lemma LeadingZero(s: string)
    requires s != "" && AllDigits(s, 10)
    ensures Numeral(s) == Some(Value(s, 10, 0)) <==> s[0] != '0' || Value(s, 10, 0) < 8
    ensures Numeral(s).Some? ==> Numeral(s).value <= Value(s, 10, 0)
  {
    if |s| > 1 { assert IsDigit(s[1]) by { assert DigitOf(s[1]) < 10; } }
    if s[0] == '0' {
      if AllDigits(s, 8) {
        OctalIsDecimal(s);
        OctalBelow(s, 0, 0);
      } else {
        var i: nat :| i < |s| && DigitOf(s[i]) >= 8;
        LargeDigit(s, i, 0);
      }
    }
  }
}
