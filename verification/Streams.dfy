/** The rewriting of PORT commands over a stream that comes in many reads: what is
    forwarded for the chunks, against the rewriting of the text that they make up. */
module Streams {
  import opened Options
  import opened Text
  import opened PortSpec
  import opened PortTheorems
  import opened SessionModel
  import opened Rewriting

  // ---- Text with places for names ----

  // The pieces of a text between the PORT lines to be written: never empty.
  type Places = seq<string>

  function Glue(a: Places, b: Places): (p: Places)
    requires a != [] && b != []
    ensures |p| == |a| + |b| - 1
  {
    a[..|a| - 1] + [a[|a| - 1] + b[0]] + b[1..]
  }

  const APlace: Places := ["", ""]

  predicate GoodNames(names: seq<Endpoint>) {
    forall i :: 0 <= i < |names| ==> GoodName(names[i])
  }

  function Fill(p: Places, names: seq<Endpoint>): string
    requires |p| == |names| + 1 && GoodNames(names)
  {
    if |p| == 1 then p[0] else p[0] + PortLine(names[0]) + Fill(p[1..], names[1..])
  }

  // The same name in every place.
  function FillSame(p: Places, name: Endpoint): string
    requires p != [] && GoodName(name)
  {
    if |p| == 1 then p[0] else p[0] + PortLine(name) + FillSame(p[1..], name)
  }

  lemma {:induction false} FillGlue(a: Places, b: Places, m: seq<Endpoint>, n: seq<Endpoint>)
    requires |a| == |m| + 1 && |b| == |n| + 1 && GoodNames(m) && GoodNames(n)
    ensures GoodNames(m + n) && Fill(Glue(a, b), m + n) == Fill(a, m) + Fill(b, n)
  {
    hide PortLine;
    if |a| == 1 {
      assert m + n == n;
      assert Glue(a, b)[1..] == b[1..];
    } else {
      FillGlue(a[1..], b, m[1..], n);
      assert Glue(a, b)[1..] == Glue(a[1..], b) && (m + n)[1..] == m[1..] + n;
    }
  }

  lemma {:induction false} FillSameGlue(a: Places, b: Places, name: Endpoint)
    requires a != [] && b != [] && GoodName(name)
    ensures FillSame(Glue(a, b), name) == FillSame(a, name) + FillSame(b, name)
  {
    hide PortLine;
    if |a| == 1 {
      assert Glue(a, b)[1..] == b[1..];
    } else {
      FillSameGlue(a[1..], b, name);
      assert Glue(a, b)[1..] == Glue(a[1..], b);
    }
  }

  lemma {:induction false} GlueCancels(a: Places, x: Places, y: Places)
    requires a != [] && x != [] && y != []
    ensures Glue(a, x) == Glue(a, y) <==> x == y
  {
    if Glue(a, x) == Glue(a, y) {
      var n := |a| - 1;
      assert Glue(a, x)[n] == a[n] + x[0] && Glue(a, y)[n] == a[n] + y[0];
      assert (a[n] + x[0])[|a[n]|..] == x[0] && (a[n] + y[0])[|a[n]|..] == y[0];
      assert Glue(a, x)[n + 1..] == x[1..] && Glue(a, y)[n + 1..] == y[1..];
      assert x == [x[0]] + x[1..] && y == [y[0]] + y[1..];
    }
  }

  lemma GlueAssociates(a: Places, b: Places, c: Places)
    requires a != [] && b != [] && c != []
    ensures Glue(Glue(a, b), c) == Glue(a, Glue(b, c))
  {
    var l, r := Glue(Glue(a, b), c), Glue(a, Glue(b, c));
    var n, m := |a| - 1, |b| - 1;
    if m == 0 {
      assert l[n] == (a[n] + b[0]) + c[0] == a[n] + (b[0] + c[0]) == r[n];
    }
    assert |l| == |r| && forall i :: 0 <= i < |l| ==> l[i] == r[i];
  }

  lemma GlueNothing(a: Places)
    requires a != []
    ensures Glue(a, [""]) == a && Glue([""], a) == a
  {
    var n := |a| - 1;
    assert a[n] + "" == a[n] && "" + a[0] == a[0];
    assert a == a[..n] + [a[n]] && a == [a[0]] + a[1..];
  }

  // ---- Names tell places ----

  // Two names whose lines differ behind `PORT ` and in length.
  predicate Telling(a: Endpoint, b: Endpoint) {
    && GoodName(a) && GoodName(b)
    && 5 < |PortLine(a)| < |PortLine(b)| && PortLine(a)[..5] == PortLine(b)[..5] == "PORT "
    && PortLine(a)[5] == '0' && PortLine(b)[5] == '1'
  }

  lemma FirstByte(n: nat)
    requires n < 256
    ensures n * 0x100_0000 < 0x1_0000_0000 && PortSpec.Bytes(n * 0x100_0000) == [n, 0, 0, 0]
  {
    hide PortSpec.Bytes;
    var address := n * 0x100_0000;
    assert Address(n, 0, 0, 0) == address;
    AddressInjective(PortSpec.Bytes(address), [n, 0, 0, 0]);
  }

  lemma ByteName(n: nat) returns (e: Endpoint)
    requires n < 256
    ensures GoodName(e) && |PortLine(e)| == 16 + |Decimal(n)| && PortLine(e)[..5] == "PORT "
    ensures Decimal(n) != "" && PortLine(e)[5] == Decimal(n)[0]
  {
    hide PortLine, PortSpec.Bytes, InetNtoa, Decimal;
    FirstByte(n);
    e := Endpoint(n * 0x100_0000, 0);
    PrintedBegin(e);
    ShortDecimals();
    LineLength(e);
    NtoaLength(e);
  }

  lemma TellingNames() returns (a: Endpoint, b: Endpoint)
    ensures Telling(a, b)
  {
    hide PortLine, Decimal;
    a := ByteName(0);
    b := ByteName(10);
    ShortDecimals();
  }

  lemma ShortDecimals()
    ensures Decimal(0) == "0" && Decimal(10) == "10"
  {
  }

  lemma NtoaLength(e: Endpoint)
    requires GoodName(e)
    ensures var b := PortSpec.Bytes(e.address);
            |InetNtoa(e.address)| == |Decimal(b[0])| + |Decimal(b[1])| + |Decimal(b[2])| + |Decimal(b[3])| + 3
  {
    hide Decimal;
    var f := Printed(PortSpec.Bytes(e.address));
    assert Join(f[3..], '.') == f[3];
    assert Join(f[2..], '.') == f[2] + "." + Join(f[3..], '.') by { assert f[2..][1..] == f[3..]; }
    assert Join(f[1..], '.') == f[1] + "." + Join(f[2..], '.') by { assert f[1..][1..] == f[2..]; }
  }

  lemma PrintedBegin(e: Endpoint)
    requires GoodName(e)
    ensures |PortLine(e)| > 5 && PortLine(e)[..5] == "PORT "
    ensures var first := Decimal(PortSpec.Bytes(e.address)[0]); first != "" && PortLine(e)[5] == first[0]
  {
    hide PortLine;
    PrintedWellFormed(e);
    var fields := PrintedFields(e);
    assert fields[0] == Decimal(PortSpec.Bytes(e.address)[0]);
  }

  lemma FillBegins(p: Places, name: Endpoint)
    requires p != [] && GoodName(name)
    ensures var text, i, n := FillSame(p, name), |p[0]|, |PortLine(name)|;
            i <= |text| && text[..i] == p[0] &&
            (|p| == 1 ==> text == p[0]) &&
            (|p| > 1 ==> i + n <= |text| && text[i..i + n] == PortLine(name) && text[i + n..] == FillSame(p[1..], name))
  {
    hide PortLine;
  }

  // Where one text has a place earlier than the other, some name shows it.
  lemma Earlier(p: Places, q: Places, a: Endpoint, b: Endpoint)
    requires p != [] && q != [] && Telling(a, b) && |p[0]| < |q[0]|
    ensures FillSame(p, a) != FillSame(q, a) || FillSame(p, b) != FillSame(q, b)
  {
    hide PortLine, FillSame;
    var i, d := |p[0]|, |q[0]| - |p[0]|;
    FillBegins(p, a);
    FillBegins(q, a);
    if |p| > 1 {
      FillBegins(p, b);
      FillBegins(q, b);
      var pa, pb, qa, qb := FillSame(p, a), FillSame(p, b), FillSame(q, a), FillSame(q, b);
      if d > 5 {
        assert pa[i + 5] == pa[i..i + |PortLine(a)|][5] == '0';
        assert pb[i + 5] == pb[i..i + |PortLine(b)|][5] == '1';
        assert qa[i + 5] == qa[..|q[0]|][i + 5] == q[0][i + 5];
        assert qb[i + 5] == qb[..|q[0]|][i + 5] == q[0][i + 5];
      } else if |q| > 1 {
        assert pa[i + d] == pa[i..i + |PortLine(a)|][d] == PortLine(a)[d];
        assert qa[i + d] == qa[|q[0]|..|q[0]| + |PortLine(a)|][0] == PortLine(a)[0];
        assert PortLine(a)[0] == PortLine(a)[..5][0] == 'P';
        assert d < 5 ==> PortLine(a)[d] == PortLine(a)[..5][d];
      }
    }
  }

  lemma {:induction false} SameFills(p: Places, q: Places, a: Endpoint, b: Endpoint)
    requires p != [] && q != [] && Telling(a, b)
    requires FillSame(p, a) == FillSame(q, a) && FillSame(p, b) == FillSame(q, b)
    ensures p == q
  {
    hide PortLine, FillSame;
    if |p[0]| < |q[0]| {
      Earlier(p, q, a, b);
    } else if |q[0]| < |p[0]| {
      Earlier(q, p, a, b);
    } else {
      FillBegins(p, a);
      FillBegins(q, a);
      if |p| > 1 && |q| > 1 {
        FillBegins(p, b);
        FillBegins(q, b);
        SameFills(p[1..], q[1..], a, b);
      }
      assert p == [p[0]] + p[1..] && q == [q[0]] + q[1..];
    }
  }

  /** Two texts with places are the same for all names exactly when their places are. */
  lemma NamesTellPlaces(p: Places, q: Places)
    requires p != [] && q != []
    ensures (forall name :: GoodName(name) ==> FillSame(p, name) == FillSame(q, name)) <==> p == q
  {
    hide PortLine;
    var a, b := TellingNames();
    if forall name :: GoodName(name) ==> FillSame(p, name) == FillSame(q, name) { SameFills(p, q, a, b); }
  }

  // ---- The places in a text ----

  // Where the rewriting line by line puts names.
  function PlacesIn(text: string): (p: Places)
    ensures p != []
    decreases |text|
  {
    if text == "" then [""]
    else
      var rest := Rest(text);
      Glue(if IsPortLine(Line(text)) then APlace else [text[..|text| - |rest|]], PlacesIn(rest))
  }

  lemma {:induction false} FillPlaces(text: string, name: Endpoint)
    requires GoodName(name)
    ensures FillSame(PlacesIn(text), name) == ByLines(text, name)
    decreases |text|
  {
    hide PortLine, IsPortLine, Line, Rest, Glue;
    if text != "" {
      var head := if IsPortLine(Line(text)) then APlace else [text[..|text| - |Rest(text)|]];
      FillPlaces(Rest(text), name);
      FillSameGlue(head, PlacesIn(Rest(text)), name);
      assert "" + PortLine(name) + "" == PortLine(name);
    }
  }

  lemma {:induction false} PlacesCount(text: string)
    ensures |PlacesIn(text)| == PortLines(text) + 1
    ensures PortLines(text) == 0 <==> PlacesIn(text) == [text]
    ensures PlacesIn(text) == [""] <==> text == ""
    decreases |text|
  {
    hide IsPortLine, Line, Rest;
    if text != "" {
      var rest := Rest(text);
      PlacesCount(rest);
      assert text[..|text| - |rest|] + rest == text;
    }
  }

  lemma OnePortLine(text: string)
    ensures PlacesIn(text) == APlace <==> text != "" && IsPortLine(Line(text)) && Rest(text) == ""
  {
    hide IsPortLine, Line, Rest;
    if text != "" {
      var rest := Rest(text);
      PlacesCount(rest);
      if IsPortLine(Line(text)) {
        GlueNothing(APlace);
        GlueCancels(APlace, PlacesIn(rest), [""]);
      }
    }
  }

  // What is forwarded for a chunk: itself, or a name.
  function Piece(chunk: string): Places {
    if Recognised(chunk, |chunk|) then APlace else [chunk]
  }

  lemma WholeLinesPlaces(chunk: string)
    ensures PlacesIn(chunk) == Piece(chunk) <==> WholeLines(chunk)
  {
    hide Recognised, IsPortLine, Line, Rest, PlacesIn, PortLines;
    PlacesCount(chunk);
    OnePortLine(chunk);
    if Recognised(chunk, |chunk|) {
      Begins(chunk);
      if chunk[4] in EOL { EndBehindPort(chunk); } else { FirstLineDecides(chunk); }
    }
  }

  // ---- A text that goes on ----

  // The last line, with its ends.
  function LastLine(text: string): (last: string)
    ensures last == "" <==> text == ""
    ensures last != "" ==> Rest(last) == ""
    decreases |text|
  {
    if text == "" then "" else if Rest(text) == "" then text else LastLine(Rest(text))
  }

  lemma LineAndEnds(text: string)
    requires text != ""
    ensures var line, ends := Line(text), Ends(text[|Line(text)|..]);
            text == line + ends + Rest(text) && Free(line, EOL) && Eol(ends) &&
            (Rest(text) != "" ==> ends != "" && Rest(text)[0] !in EOL)
  {
    var line := Line(text);
    var behind := text[|line|..];
    assert text == line + behind && behind == Ends(behind) + Rest(text);
  }

  lemma {:induction false} EndsOf(ends: string, rest: string)
    requires Eol(ends) && (rest == "" || rest[0] !in EOL)
    ensures Ends(ends + rest) == ends
  {
    if ends == "" {
      assert ends + rest == rest;
    } else {
      assert (ends + rest)[1..] == ends[1..] + rest;
      EndsOf(ends[1..], rest);
    }
  }

  // A text is cut into its first line, the ends of that, and the rest in one way only.
  lemma CutOnce(text: string, line: string, ends: string, rest: string)
    requires text == line + ends + rest && Free(line, EOL) && Eol(ends)
    requires rest == "" || (ends != "" && rest[0] !in EOL)
    ensures Line(text) == line && Rest(text) == rest
  {
    assert text == line + (ends + rest);
    UntilAt(line, ends + rest, EOL);
    assert text[|line|..] == ends + rest;
    EndsOf(ends, rest);
  }

  lemma PlacesCut(text: string, line: string, ends: string, rest: string)
    requires text != "" && text == line + ends + rest && Free(line, EOL) && Eol(ends)
    requires rest == "" || (ends != "" && rest[0] !in EOL)
    ensures PlacesIn(text) == Glue(if IsPortLine(line) then APlace else [line + ends], PlacesIn(rest))
    ensures Line(text) == line && Rest(text) == rest
  {
    hide IsPortLine, Line, Rest, Glue, Ends;
    CutOnce(text, line, ends, rest);
    assert text[..|text| - |rest|] == line + ends;
  }

  // The places in a single line.
  lemma PlacesInLine(last: string)
    requires last != "" && Rest(last) == ""
    ensures PlacesIn(last) == if IsPortLine(Line(last)) then APlace else [last]
  {
    hide IsPortLine, Line, Rest, Glue;
    assert last[..|last|] == last;
    GlueNothing(if IsPortLine(Line(last)) then APlace else [last]);
  }

  // The first line stays when a text with more than one goes on.
  lemma FirstLineStays(text: string, more: string)
    requires text != "" && Rest(text) != ""
    ensures Line(text + more) == Line(text) && Rest(text + more) == Rest(text) + more
  {
    hide Line, Rest;
    LineAndEnds(text);
    var ends := Ends(text[|Line(text)|..]);
    assert text + more == Line(text) + ends + (Rest(text) + more);
    CutOnce(text + more, Line(text), ends, Rest(text) + more);
  }

  // What more text adds to the places is decided by the last line.
  lemma {:induction false} LastLineDecides(text: string, more: string, p: Places)
    requires text != "" && p != []
    ensures PlacesIn(text + more) == Glue(PlacesIn(text), p)
            <==> PlacesIn(LastLine(text) + more) == Glue(PlacesIn(LastLine(text)), p)
    decreases |text|
  {
    hide IsPortLine, Line, Rest, Glue;
    var rest := Rest(text);
    if rest != "" {
      var head := if IsPortLine(Line(text)) then APlace else [text[..|text| - |rest|]];
      FirstLineStays(text, more);
      assert (text + more)[..|text| - |rest|] == text[..|text| - |rest|];
      LastLineDecides(rest, more, p);
      GlueAssociates(head, PlacesIn(rest), p);
      GlueCancels(head, PlacesIn(rest + more), Glue(PlacesIn(rest), p));
    }
  }

  // ---- One more chunk ----

  // May `chunk` follow a text that ends in that last line? Behind an unfinished PORT line
  // it may only if it is itself taken for a PORT command, by a line end as its fifth
  // character, and ends with a PORT line.
  predicate Continues(last: string, chunk: string)
    requires chunk != ""
  {
    if last == "" then WholeLines(chunk)
    else if Line(last) != last then        // behind a line end
      (if chunk[0] in EOL then !IsPortLine(Line(last)) && PortLines(chunk) == 0 else WholeLines(chunk))
    else if IsPortLine(last) then          // amid a line
      IsPortLine(last + Line(chunk)) && Recognised(chunk, |chunk|) &&
      Rest(chunk) != "" && IsPortLine(Line(Rest(chunk))) && Rest(Rest(chunk)) == ""
    else
      !IsPortLine(last + Line(chunk)) && !Recognised(chunk, |chunk|) && PortLines(Rest(chunk)) == 0
  }

  lemma BehindLineEnd(last: string, chunk: string)
    requires last != "" && Rest(last) == "" && Line(last) != last && chunk != "" && chunk[0] !in EOL
    ensures PlacesIn(last + chunk) == Glue(PlacesIn(last), PlacesIn(chunk))
  {
    hide IsPortLine, Line, Rest, Glue, PlacesIn, Ends;
    LineAndEnds(last);
    PlacesInLine(last);
    PlacesCut(last + chunk, Line(last), Ends(last[|Line(last)|..]), chunk);
  }

  // More line ends behind a line end.
  lemma MoreEnds(last: string, chunk: string)
    requires last != "" && Rest(last) == "" && Line(last) != last && chunk != "" && chunk[0] in EOL
    ensures PlacesIn(last + chunk) == Glue(PlacesIn(last), [chunk])
            <==> !IsPortLine(Line(last)) && PortLines(chunk) == 0
  {
    hide IsPortLine, Line, Rest, Glue, PortLines, PlacesIn, Ends;
    StartsWithEnd(chunk);
    var rest := Rest(chunk);
    var more := chunk[..|chunk| - |rest|];
    EndsGoOn(last, more, rest);
    assert last + chunk == last + (more + rest);
    PlacesInLine(last);
    PlacesCount(chunk);
    if IsPortLine(Line(last)) {
      NotLonger(rest, chunk);
    } else {
      GluePieces(last, more, PlacesIn(rest));
      GlueCancels([last], Glue([more], PlacesIn(rest)), [chunk]);
    }
  }

  lemma EndsGoOn(last: string, more: string, rest: string)
    requires last != "" && Rest(last) == "" && Line(last) != last && Eol(more) && (rest == "" || rest[0] !in EOL)
    ensures PlacesIn(last + (more + rest)) ==
              Glue(if IsPortLine(Line(last)) then APlace else [last + more], PlacesIn(rest))
  {
    hide IsPortLine, Line, Rest, Glue, PlacesIn, Ends;
    LineAndEnds(last);
    var ends := Ends(last[|Line(last)|..]);
    assert last + (more + rest) == Line(last) + (ends + more) + rest && Line(last) + (ends + more) == last + more;
    PlacesCut(last + (more + rest), Line(last), ends + more, rest);
  }

  lemma GluePieces(a: string, b: string, p: Places)
    requires p != []
    ensures Glue([a + b], p) == Glue([a], Glue([b], p))
  {
    assert (a + b) + p[0] == a + (b + p[0]);
  }

  lemma StartsWithEnd(chunk: string)
    requires chunk != "" && chunk[0] in EOL
    ensures !Recognised(chunk, |chunk|)
    ensures var rest := Rest(chunk); var ends := chunk[..|chunk| - |rest|];
            chunk == ends + rest && Eol(ends) && (rest == "" || rest[0] !in EOL) &&
            PlacesIn(chunk) == Glue([ends], PlacesIn(rest))
  {
    hide Rest, Glue, Ends, Split, Until;
    if |chunk| >= 4 { assert chunk[..4][0] == chunk[0]; }
    LineAndEnds(chunk);
    assert Line(chunk) == "" by { UntilAt("", chunk, EOL); assert "" + chunk == chunk; }
    assert chunk[..|chunk| - |Rest(chunk)|] == Ends(chunk[|Line(chunk)|..]);
  }

  // The places of a proper end of a chunk are not the chunk.
  lemma NotLonger(rest: string, chunk: string)
    requires |rest| < |chunk|
    ensures Glue(APlace, PlacesIn(rest)) != Glue(APlace, [chunk])
  {
    hide PlacesIn;
    PlacesCount(rest);
    GlueCancels(APlace, PlacesIn(rest), [chunk]);
  }

  // A chunk that goes on with a line.
  lemma AmidPlaces(last: string, chunk: string)
    requires last != "" && Line(last) == last && chunk != ""
    ensures var rest := Rest(chunk); var head := chunk[..|chunk| - |rest|];
            PlacesIn(last) == (if IsPortLine(last) then APlace else [last]) &&
            PlacesIn(last + chunk) ==
              Glue(if IsPortLine(last + Line(chunk)) then APlace else [last + head], PlacesIn(rest))
  {
    hide IsPortLine, Line, Rest, Glue, PlacesIn, Ends;
    var rest, ends := Rest(chunk), Ends(chunk[|Line(chunk)|..]);
    LineAndEnds(chunk);
    LineAndEnds(last);
    assert last + chunk == (last + Line(chunk)) + ends + rest;
    assert last + chunk[..|chunk| - |rest|] == (last + Line(chunk)) + ends;
    PlacesCut(last + chunk, last + Line(chunk), ends, rest);
    CutOnce(last, last, "", "");
    PlacesInLine(last);
  }

  lemma AmidLine(last: string, chunk: string)
    requires last != "" && Line(last) == last && chunk != ""
    ensures PlacesIn(last + chunk) == Glue(PlacesIn(last), Piece(chunk)) <==> Continues(last, chunk)
  {
    hide Recognised, IsPortLine, Line, Rest, Glue, PortLines, PlacesIn;
    var rest := Rest(chunk);
    var head := chunk[..|chunk| - |rest|];
    AmidPlaces(last, chunk);
    if IsPortLine(last + Line(chunk)) {
      if IsPortLine(last) {
        GlueCancels(APlace, PlacesIn(rest), Piece(chunk));
        RestIsNotAll(chunk);
        OnePortLine(rest);
      } else {
        FirstPieces(APlace, PlacesIn(rest), [last], Piece(chunk));
      }
    } else if IsPortLine(last) {
      FirstPieces([last + head], PlacesIn(rest), APlace, Piece(chunk));
    } else {
      GluePieces(last, head, PlacesIn(rest));
      GlueCancels([last], Glue([head], PlacesIn(rest)), Piece(chunk));
      HeadAndPiece(chunk);
    }
  }

  lemma RestIsNotAll(chunk: string)
    requires chunk != ""
    ensures PlacesIn(Rest(chunk)) != [chunk]
  {
    hide PlacesIn, Rest;
    PlacesCount(Rest(chunk));
  }

  lemma FirstPieces(a: Places, x: Places, b: Places, y: Places)
    requires a != [] && b != [] && x != [] && y != []
    requires (a == APlace && |b| == 1 && b[0] != "") || (b == APlace && |a| == 1 && a[0] != "")
    ensures Glue(a, x) != Glue(b, y)
  {
    assert a == APlace ==> Glue(a, x)[0] == "" && |Glue(b, y)[0]| >= |b[0]|;
    assert b == APlace ==> Glue(b, y)[0] == "" && |Glue(a, x)[0]| >= |a[0]|;
  }

  // A first line that is kept, before what follows it, is what is forwarded only if that
  // is the chunk itself.
  lemma HeadAndPiece(chunk: string)
    requires chunk != ""
    ensures var rest := Rest(chunk);
            Glue([chunk[..|chunk| - |rest|]], PlacesIn(rest)) == Piece(chunk)
            <==> !Recognised(chunk, |chunk|) && PortLines(rest) == 0
  {
    hide Recognised, PlacesIn, PortLines, Line, Rest;
    var rest := Rest(chunk);
    var head := chunk[..|chunk| - |rest|];
    assert head + rest == chunk;
    PlacesCount(rest);
    if Recognised(chunk, |chunk|) {
      assert Glue([head], PlacesIn(rest))[0] == head + PlacesIn(rest)[0];
    } else {
      GlueCancels([head], PlacesIn(rest), [rest]);
    }
  }

  /** One more chunk keeps the places of what is forwarded and of what was said the same
      exactly when it may follow the last line. */
  lemma OneMoreChunk(text: string, chunk: string)
    requires chunk != ""
    ensures PlacesIn(text + chunk) == Glue(PlacesIn(text), Piece(chunk)) <==> Continues(LastLine(text), chunk)
  {
    hide Recognised, IsPortLine, Line, Rest, PlacesIn, Glue, PortLines, WholeLines;
    var last := LastLine(text);
    WholeLinesPlaces(chunk);
    if text == "" {
      assert text + chunk == chunk && PlacesIn(text) == [""] by { PlacesCount(text); }
      GlueNothing(Piece(chunk));
    } else {
      LastLineDecides(text, chunk, Piece(chunk));
      if Line(last) == last {
        AmidLine(last, chunk);
      } else if chunk[0] in EOL {
        MoreEnds(last, chunk);
        StartsWithEnd(chunk);
      } else {
        BehindLineEnd(last, chunk);
        GlueCancels(PlacesIn(last), PlacesIn(chunk), Piece(chunk));
      }
    }
  }

  // ---- Many reads ----

  predicate NoneEmpty(chunks: seq<string>) {
    forall i :: 0 <= i < |chunks| ==> chunks[i] != ""
  }

  // The text that the chunks make up.
  function Said(chunks: seq<string>): string {
    if chunks == [] then "" else Said(chunks[..|chunks| - 1]) + chunks[|chunks| - 1]
  }

  // What is forwarded for them, if every PORT command gets that name.
  function Sent(chunks: seq<string>, name: Endpoint): string
    requires GoodName(name)
  {
    if chunks == [] then "" else Sent(chunks[..|chunks| - 1], name) + Forwarded(chunks[|chunks| - 1], Named(name))
  }

  function SentPlaces(chunks: seq<string>): (p: Places)
    ensures p != []
  {
    if chunks == [] then [""] else Glue(SentPlaces(chunks[..|chunks| - 1]), Piece(chunks[|chunks| - 1]))
  }

  // Every chunk may follow the last line of those before it.
  predicate Steady(chunks: seq<string>)
    requires NoneEmpty(chunks)
  {
    chunks == [] ||
    (Steady(chunks[..|chunks| - 1]) && Continues(LastLine(Said(chunks[..|chunks| - 1])), chunks[|chunks| - 1]))
  }

  lemma {:induction false} FillSentPlaces(chunks: seq<string>, name: Endpoint)
    requires GoodName(name)
    ensures FillSame(SentPlaces(chunks), name) == Sent(chunks, name)
  {
    hide PortLine, Recognised, Glue;
    if chunks != [] {
      var init, chunk := chunks[..|chunks| - 1], chunks[|chunks| - 1];
      FillSentPlaces(init, name);
      FillSameGlue(SentPlaces(init), Piece(chunk), name);
      assert "" + PortLine(name) + "" == PortLine(name);
    }
  }

  /** For a sequence of reads, what is forwarded is the rewriting of what was said, for all
      names, exactly when the names stand in the same places. */
  lemma RewritesInTheEnd(chunks: seq<string>)
    ensures (forall name :: GoodName(name) ==> Sent(chunks, name) == ByLines(Said(chunks), name))
            <==> SentPlaces(chunks) == PlacesIn(Said(chunks))
  {
    hide PortLine, Sent, SentPlaces, PlacesIn, Said, ByLines;
    forall name | GoodName(name)
      ensures Sent(chunks, name) == FillSame(SentPlaces(chunks), name)
      ensures ByLines(Said(chunks), name) == FillSame(PlacesIn(Said(chunks)), name)
    {
      FillSentPlaces(chunks, name);
      FillPlaces(Said(chunks), name);
    }
    NamesTellPlaces(SentPlaces(chunks), PlacesIn(Said(chunks)));
  }

  predicate SameAt(chunks: seq<string>) {
    SentPlaces(chunks) == PlacesIn(Said(chunks))
  }

  // After every read.
  predicate SameAlong(chunks: seq<string>) {
    SameAt(chunks) && (chunks != [] ==> SameAlong(chunks[..|chunks| - 1]))
  }

  lemma {:induction false} SameAlongPrefixes(chunks: seq<string>)
    ensures SameAlong(chunks) <==> forall i :: 0 <= i <= |chunks| ==> SameAt(chunks[..i])
  {
    hide SameAt;
    var n := |chunks|;
    assert chunks[..n] == chunks;
    if n > 0 {
      var init := chunks[..n - 1];
      SameAlongPrefixes(init);
      forall i | 0 <= i <= n - 1 ensures init[..i] == chunks[..i] {}
      if forall i :: 0 <= i <= n ==> SameAt(chunks[..i]) {
        forall i | 0 <= i <= |init| ensures SameAt(init[..i]) { assert SameAt(chunks[..i]); }
      }
      if SameAlong(chunks) {
        forall i | 0 <= i <= n ensures SameAt(chunks[..i]) {
          if i < n { assert SameAt(init[..i]); }
        }
      }
    }
  }

  lemma {:induction false} SamePlaces(chunks: seq<string>)
    requires NoneEmpty(chunks)
    ensures SameAlong(chunks) <==> Steady(chunks)
  {
    hide Continues, Glue, PlacesIn, LastLine;
    if chunks == [] {
      PlacesCount("");
    } else {
      var init := chunks[..|chunks| - 1];
      SamePlaces(init);
      assert SameAlong(init) ==> SameAt(init);
      OneMoreChunk(Said(init), chunks[|chunks| - 1]);
    }
  }

  /** After every read, what has been forwarded is the rewriting line by line of what has
      been said so far, for all names, exactly when the reads are steady. That is, none cuts
      a PORT line or its line ends, and each that is recognised as a PORT command is one;
      the one exception is a read that brings `PORT`, a line end and a PORT line behind an
      unfinished PORT line, where what is dropped and what is not rewritten make up for
      each other. */
  lemma RewritesAtEveryRead(chunks: seq<string>)
    requires NoneEmpty(chunks)
    ensures (forall i, name :: 0 <= i <= |chunks| && GoodName(name) ==>
               Sent(chunks[..i], name) == ByLines(Said(chunks[..i]), name))
            <==> Steady(chunks)
  {
    hide Sent, SentPlaces, PlacesIn, Said, ByLines, Steady, GoodName, SameAlong;
    forall i | 0 <= i <= |chunks|
      ensures (forall name :: GoodName(name) ==> Sent(chunks[..i], name) == ByLines(Said(chunks[..i]), name))
              <==> SameAt(chunks[..i])
    {
      RewritesInTheEnd(chunks[..i]);
    }
    SamePlaces(chunks);
    SameAlongPrefixes(chunks);
  }

  lemma NotFree(text: string)
    requires text != "" && text[|text| - 1] in EOL
    ensures !Free(text, EOL)
  {
  }

  lemma {:induction false} LastLineEnds(text: string)
    requires text != "" && text[|text| - 1] in EOL
    ensures Line(LastLine(text)) != LastLine(text)
    decreases |text|
  {
    hide Rest;
    var rest := Rest(text);
    if rest == "" {
      LineAndEnds(text);
      NotFree(text);
    } else {
      assert rest[|rest| - 1] == text[|text| - 1];
      LastLineEnds(rest);
    }
  }

  /** So it is when every read ends with a line end and begins with none, and brings either
      one PORT line or only other lines. */
  lemma {:induction false} CleanReadsAreSteady(chunks: seq<string>)
    requires forall i :: 0 <= i < |chunks| ==>
               chunks[i] != "" && chunks[i][0] !in EOL && chunks[i][|chunks[i]| - 1] in EOL && WholeLines(chunks[i])
    ensures Steady(chunks)
  {
    hide WholeLines, Line, LastLine;
    if chunks != [] {
      var n := |chunks| - 1;
      var init := chunks[..n];
      CleanReadsAreSteady(init);
      if init != [] {
        var before := Said(init);
        assert before == Said(init[..n - 1]) + init[n - 1];
        assert before[|before| - 1] == init[n - 1][|init[n - 1]| - 1];
        LastLineEnds(before);
      }
    }
  }

  /** A well-formed PORT line in two reads is never steady, wherever it is cut. */
  lemma CutLineIsNotSteady(fields: seq<string>, v: seq<nat>, eol: string, k: nat)
    requires WellFormed(fields, v, eol) && 0 < k <= 5 + |Join(fields, ',')|
    requires k < |"PORT " + Join(fields, ',') + eol|
    ensures var line := "PORT " + Join(fields, ',') + eol; !Steady([line[..k], line[k..]])
  {
    hide WellFormed, Recognised, Join, Line, Rest, Steady, WholeLines, PortLines, CountIn, PortLine, Forwarded;
    SixFields(fields, v, eol);
    var body := Join(fields, ',');
    var line := "PORT " + body + eol;
    var a, b := line[..k], line[k..];
    BodyOfLine(fields, v, eol);
    var name := Endpoint(0, 0);
    CutLine(fields, v, eol, k, Named(name));
    SingleLine("PORT " + body, eol, k);
    WholeIsPortLine(fields, v, eol);
    TwoReads(a, b);
  }

  lemma TwoReads(a: string, b: string)
    requires a != "" && b != ""
    ensures Steady([a, b]) ==> Continues(LastLine(a), b)
  {
    hide Continues, LastLine;
    assert [a, b][..1] == [a] && [a][..0] == [] && "" + a == a;
    assert Said([a]) == Said([]) + a;
    assert [a, b][|[a, b]| - 1] == b;
  }

  lemma WholeIsPortLine(fields: seq<string>, v: seq<nat>, eol: string)
    requires WellFormed(fields, v, eol)
    ensures |fields| == 6 && IsPortLine("PORT " + Join(fields, ','))
  {
    hide Recognised, Join;
    assert WellFormed(fields, v, "");
    WellFormedIsRecognised(fields, v, "");
    assert "PORT " + Join(fields, ',') + "" == "PORT " + Join(fields, ',');
  }

  // The two parts of one line: the first is a line of its own, the second goes on with it.
  lemma SingleLine(text: string, eol: string, k: nat)
    requires Free(text, EOL) && Eol(eol) && 0 < k <= |text|
    ensures var line := text + eol;
            LastLine(line[..k]) == line[..k] && Line(line[..k]) == line[..k] && line[..k] + Line(line[k..]) == text
  {
    hide Line, Rest;
    var line := text + eol;
    assert line[..k] == text[..k] + "" + "" && line[k..] == text[k..] + eol + "";
    CutOnce(line[..k], text[..k], "", "");
    CutOnce(line[k..], text[k..], eol, "");
    assert text[..k] + text[k..] == text;
  }

  // ---- With the names that the listening sockets had ----

  // One read of the client's, and the kernel's answers to it.
  datatype Read = Read(chunk: string, net: Net)

  predicate GoodReads(rs: seq<Read>) {
    forall i :: 0 <= i < |rs| ==> GoodNet(rs[i].net)
  }

  // Every PORT command got a listening socket with a name.
  predicate Answered(rs: seq<Read>) {
    forall i :: 0 <= i < |rs| && Recognised(rs[i].chunk, |rs[i].chunk|) ==>
      rs[i].net.listen.Some? && rs[i].net.listen.value.name.Some?
  }

  function Chunks(rs: seq<Read>): seq<string> {
    seq(|rs|, i requires 0 <= i < |rs| => rs[i].chunk)
  }

  function Forwards(rs: seq<Read>): string
    requires GoodReads(rs)
  {
    if rs == [] then ""
    else Forwards(rs[..|rs| - 1]) + Forwarded(rs[|rs| - 1].chunk, rs[|rs| - 1].net)
  }

  // The names, in order, of the sockets that listen for PORT commands.
  function Names(rs: seq<Read>): (names: seq<Endpoint>)
    requires GoodReads(rs) && Answered(rs)
    ensures GoodNames(names)
  {
    if rs == [] then []
    else
      var last := rs[|rs| - 1];
      Names(rs[..|rs| - 1]) + if Recognised(last.chunk, |last.chunk|) then [last.net.listen.value.name.value] else []
  }

  // `text` with its PORT lines rewritten, in order, to those names.
  function Rewritten(text: string, names: seq<Endpoint>): string
    requires |names| == PortLines(text) && GoodNames(names)
  {
    PlacesCount(text);
    Fill(PlacesIn(text), names)
  }

  lemma {:induction false} ForwardsFill(rs: seq<Read>)
    requires GoodReads(rs) && Answered(rs)
    ensures |SentPlaces(Chunks(rs))| == |Names(rs)| + 1
    ensures Fill(SentPlaces(Chunks(rs)), Names(rs)) == Forwards(rs)
  {
    hide PortLine, Recognised, Glue;
    if rs != [] {
      var n := |rs| - 1;
      var init, last := rs[..n], rs[n];
      ForwardsFill(init);
      assert Chunks(rs)[..n] == Chunks(init) && Chunks(rs)[n] == last.chunk;
      var name := if Recognised(last.chunk, |last.chunk|) then [last.net.listen.value.name.value] else [];
      FillGlue(SentPlaces(Chunks(init)), Piece(last.chunk), Names(init), name);
      if name != [] { assert "" + PortLine(name[0]) + "" == PortLine(name[0]); }
    }
  }

  /** What is forwarded for steady reads whose PORT commands were answered is what was said
      with its PORT lines rewritten, each to the name of the socket that listens for it. */
  lemma SteadyReadsForward(rs: seq<Read>)
    requires GoodReads(rs) && Answered(rs) && NoneEmpty(Chunks(rs)) && Steady(Chunks(rs))
    ensures |Names(rs)| == PortLines(Said(Chunks(rs)))
    ensures Forwards(rs) == Rewritten(Said(Chunks(rs)), Names(rs))
  {
    hide SentPlaces, PlacesIn, Said, Steady, Names, Forwards;
    var chunks := Chunks(rs);
    ForwardsFill(rs);
    SamePlaces(chunks);
    PlacesCount(Said(chunks));
  }
}
