/** src/email.rs: the text of one mail, dot-stuffed, and a receiver to undo it. */
module Mail {
  import opened Common

  const CRLF: string := "\r\n"

  datatype Message = Message(from: string, to: seq<string>, subject: string, body: string)

  function Join(parts: seq<string>): string {
    if parts == [] then ""
    else if |parts| == 1 then parts[0]
    else parts[0] + ", " + Join(parts[1..])
  }

  /** The first line feed at or after `i`, or the end. */
  function LineFeed(s: string, i: nat): (k: nat)
    requires i <= |s|
    ensures i <= k <= |s| && (k < |s| ==> s[k] == '\n')
    ensures forall j :: i <= j < k ==> s[j] != '\n'
    decreases |s| - i
  {
    if i == |s| || s[i] == '\n' then i else LineFeed(s, i + 1)
  }

  function WithoutReturn(line: string): string {
    if line != "" && Last(line) == '\r' then Front(line) else line
  }

  /** Rust's `lines`: split at line feeds, each taking one carriage return before it along. */
  function Lines(s: string): seq<string>
    decreases |s|
  {
    if s == "" then []
    else
      var k := LineFeed(s, 0);
      if k == |s| then [s] else [WithoutReturn(s[..k])] + Lines(s[k + 1..])
  }

  function Stuffed(line: string): string {
    if line != "" && line[0] == '.' then "." + line else line
  }

  function HeaderLines(m: Message): seq<string> {
    ["From: " + m.from, "To: " + Join(m.to), "Subject: " + m.subject, "Content-Type: " + "text/plain; charset=utf-8", ""]
  }

  /** Lines as they go out: stuffed, each ended by CRLF. */
  function Sent(lines: seq<string>): string {
    if lines == [] then "" else Sent(Front(lines)) + Stuffed(Last(lines)) + CRLF
  }

  /** The whole text of a mail, up to and with the lone dot. */
  function TextOf(m: Message): string {
    Sent(HeaderLines(m) + Lines(m.body)) + "." + CRLF
  }

  method Data(m: Message) returns (out: string)
    ensures out == TextOf(m)
  {
    var headers := Headers(m);
    out := headers;
    var lines := Lines(m.body);
    assert HeaderLines(m) + lines[..0] == HeaderLines(m);
    for i := 0 to |lines|
      invariant out == Sent(HeaderLines(m) + lines[..i])
    {
      TakeOneMore(HeaderLines(m), lines, i);
      out := AddBodyLine(out, HeaderLines(m) + lines[..i], lines[i]);
    }
    assert lines[..|lines|] == lines;
    out := out + "." + CRLF;
  }

  method AddBodyLine(text: string, ghost said: seq<string>, line: string) returns (out: string)
    requires text == Sent(said)
    ensures out == Sent(said + [line])
  {
    SentSnoc(said, line);
    out := text;
    if line != "" && line[0] == '.' {
      out := out + ".";
      StuffedAfter(text, line);
    }
    out := out + line;
    out := out + CRLF;
  }

  lemma StuffedAfter(text: string, line: string)
    ensures text + "." + line == text + ("." + line)
  {
  }

  method Headers(m: Message) returns (out: string)
    ensures out == Sent(HeaderLines(m))
  {
    ghost var said: seq<string> := [];
    out := AddHeader("", said, "From: ", m.from);
    said := said + ["From: " + m.from];
    out := AddHeader(out, said, "To: ", Join(m.to));
    said := said + ["To: " + Join(m.to)];
    out := AddHeader(out, said, "Subject: ", m.subject);
    said := said + ["Subject: " + m.subject];
    out := AddHeader(out, said, "Content-Type: ", "text/plain; charset=utf-8");
    said := said + ["Content-Type: " + "text/plain; charset=utf-8"];
    SentSnoc(said, "");
    out := out + CRLF;
    assert said + [""] == HeaderLines(m);
  }

  /** A header goes out as it is: nothing starting with a letter is stuffed. */
  method AddHeader(text: string, ghost said: seq<string>, name: string, value: string) returns (out: string)
    requires text == Sent(said) && name != "" && name[0] != '.'
    ensures out == Sent(said + [name + value])
  {
    SentSnoc(said, name + value);
    out := text + (name + value) + CRLF;
  }

  lemma SentSnoc(lines: seq<string>, line: string)
    ensures Sent(lines + [line]) == Sent(lines) + Stuffed(line) + CRLF
  {
    assert Front(lines + [line]) == lines;
  }

  // The receiver, section 4.5.2 of RFC 5321.

  predicate BreaksAt(s: string, i: nat) {
    i + 1 < |s| && s[i] == '\r' && s[i + 1] == '\n'
  }

  /** No line break inside. */
  predicate Unbroken(s: string) {
    forall i :: 0 <= i < |s| ==> !BreaksAt(s, i)
  }

  /** Where the first CRLF at or after `i` starts, or the end when there is none. */
  function BreakFrom(s: string, i: nat): (k: nat)
    requires i <= |s|
    ensures i <= k <= |s| && (k < |s| ==> BreaksAt(s, k))
    ensures forall j :: i <= j < k ==> !BreaksAt(s, j)
    decreases |s| - i
  {
    if i == |s| || BreaksAt(s, i) then i else BreakFrom(s, i + 1)
  }

  function Unstuffed(line: string): string {
    if line != "" && line[0] == '.' then line[1..] else line
  }

  datatype Delivery = Delivery(lines: seq<string>, rest: string)

  /** Lines up to the first lone dot, with one leading dot taken off, and whatever follows it. */
  function Receive(s: string): Option<Delivery>
    decreases |s|
  {
    var k := BreakFrom(s, 0);
    if k == |s| then None
    else if s[..k] == "." then Some(Delivery([], s[k + 2..]))
    else
      var more := Receive(s[k + 2..]);
      if more.None? then None
      else Some(Delivery([Unstuffed(s[..k])] + more.value.lines, more.value.rest))
  }

  lemma LineReads(line: string, rest: string)
    requires Unbroken(line)
    ensures var s := Stuffed(line) + CRLF + rest;
            BreakFrom(s, 0) == |Stuffed(line)| && s[..|Stuffed(line)|] == Stuffed(line) && s[|Stuffed(line)| + 2..] == rest
    ensures Stuffed(line) != "." && Unstuffed(Stuffed(line)) == line
  {
    var t := Stuffed(line);
    var s := t + CRLF + rest;
    assert BreaksAt(s, |t|);
    forall i | 0 <= i < |t|
      ensures !BreaksAt(s, i)
    {
      if line != "" && line[0] == '.' {
        assert t == "." + line;
        if i > 0 {
          assert !BreaksAt(line, i - 1);
          assert s[i] == line[i - 1];
        }
      } else {
        assert !BreaksAt(line, i);
      }
    }
    assert s[..|t|] == t && s[|t| + 2..] == rest;
  }

  lemma {:induction false} SentConcat(line: string, lines: seq<string>)
    ensures Sent([line] + lines) == Stuffed(line) + CRLF + Sent(lines)
  {
    if lines == [] {
      assert Front([line]) == [] && [line] + lines == [line];
    } else {
      SentConcat(line, Front(lines));
      ConsSnoc(line, lines);
      SentSnoc([line] + Front(lines), Last(lines));
      SentSnoc(Front(lines), Last(lines));
      AppendBoth(Stuffed(line) + CRLF, Sent(Front(lines)), Stuffed(Last(lines)), CRLF);
    }
  }

  lemma AppendBoth(a: string, b: string, c: string, d: string)
    ensures a + b + c + d == a + (b + c + d)
  {
  }

  /** The end of the message, and what a pipelining client sends after it. */
  lemma EndReads(rest: string)
    ensures Receive("." + CRLF + rest) == Some(Delivery([], rest))
  {
    var s := "." + CRLF + rest;
    assert BreaksAt(s, 1) && !BreaksAt(s, 0);
    assert s[..1] == "." && s[3..] == rest;
  }

  lemma SlideTail(a: string, b: string, c: string, d: string, e: string)
    ensures a + b + c + d + e == a + (b + c + d + e)
  {
  }

  lemma OneMoreLine(line: string, tail: string)
    requires Unbroken(line) && Receive(tail).Some?
    ensures Receive(Stuffed(line) + CRLF + tail)
         == Some(Delivery([line] + Receive(tail).value.lines, Receive(tail).value.rest))
  {
    LineReads(line, tail);
  }

  lemma {:induction false} LinesRead(lines: seq<string>, rest: string)
    requires forall i :: 0 <= i < |lines| ==> Unbroken(lines[i])
    ensures Receive(Sent(lines) + "." + CRLF + rest) == Some(Delivery(lines, rest))
  {
    if lines == [] {
      assert Sent(lines) + "." + CRLF + rest == "." + CRLF + rest;
      EndReads(rest);
    } else {
      var l, more := lines[0], lines[1..];
      assert lines == [l] + more;
      SentConcat(l, more);
      var tail := Sent(more) + "." + CRLF + rest;
      LinesRead(more, rest);
      SlideTail(Stuffed(l) + CRLF, Sent(more), ".", CRLF, rest);
      OneMoreLine(l, tail);
    }
  }

  lemma {:induction false} BodyLinesUnbroken(s: string)
    ensures forall i :: 0 <= i < |Lines(s)| ==> Unbroken(Lines(s)[i])
    decreases |s|
  {
    if s != "" {
      var k := LineFeed(s, 0);
      if k < |s| {
        BodyLinesUnbroken(s[k + 1..]);
      }
    }
  }

  lemma {:induction false} ReceivedUnbroken(s: string)
    ensures var d := Receive(s);
            d.Some? ==> forall i :: 0 <= i < |d.value.lines| ==> Unbroken(d.value.lines[i])
    decreases |s|
  {
    var k := BreakFrom(s, 0);
    if k < |s| && s[..k] != "." {
      ReceivedUnbroken(s[k + 2..]);
      PieceUnbroken(s, k);
    }
  }

  lemma PieceUnbroken(s: string, k: nat)
    requires k <= |s| && forall j :: 0 <= j < k ==> !BreaksAt(s, j)
    ensures Unbroken(Unstuffed(s[..k]))
  {
    var p := Unstuffed(s[..k]);
    forall i | 0 <= i < |p|
      ensures !BreaksAt(p, i)
    {
      var at := if p == s[..k] then i else i + 1;
      assert !BreaksAt(s, at);
    }
  }

  // What the lines of a text are.

  /** The line holds no line feed, and `end` is what the text has after it: nothing only at the end of the text. */
  ghost predicate EndsLine(line: string, end: string, last: bool) {
    && '\n' !in line
    && (end == "\r\n" || (end == "\n" && (line == "" || Last(line) != '\r')) || (end == "" && last && line != ""))
  }

  ghost function Woven(lines: seq<string>, ends: seq<string>): string
    requires |lines| == |ends|
  {
    if lines == [] then "" else lines[0] + ends[0] + Woven(lines[1..], ends[1..])
  }

  ghost predicate Breaks(lines: seq<string>, ends: seq<string>, s: string) {
    && |lines| == |ends|
    && (forall i :: 0 <= i < |lines| ==> EndsLine(lines[i], ends[i], i == |lines| - 1))
    && Woven(lines, ends) == s
  }

  /** The lines of a text: put back together with the ends they had, they are the text. */
  ghost predicate AreLines(lines: seq<string>, s: string) {
    exists ends :: Breaks(lines, ends, s)
  }

  /** The first line of a text, and what ends it. */
  lemma FirstLine(s: string) returns (end: string)
    requires s != "" && LineFeed(s, 0) < |s|
    ensures var k := LineFeed(s, 0);
            EndsLine(WithoutReturn(s[..k]), end, false) && s == WithoutReturn(s[..k]) + end + s[k + 1..]
  {
    var k := LineFeed(s, 0);
    var piece := s[..k];
    end := if WithoutReturn(piece) == piece then "\n" else "\r\n";
    assert s == piece + "\n" + s[k + 1..];
    if WithoutReturn(piece) != piece {
      assert piece == Front(piece) + "\r";
    }
  }

  lemma OneMoreBreak(line: string, end: string, lines: seq<string>, ends: seq<string>, s: string)
    requires Breaks(lines, ends, s) && EndsLine(line, end, lines == [])
    ensures Breaks([line] + lines, [end] + ends, line + end + s)
  {
    assert ([line] + lines)[1..] == lines && ([end] + ends)[1..] == ends;
  }

  lemma {:induction false} LinesBreak(s: string) returns (ends: seq<string>)
    ensures Breaks(Lines(s), ends, s)
    decreases |s|
  {
    if s == "" {
      ends := [];
    } else if LineFeed(s, 0) == |s| {
      ends := [""];
      assert Woven([s], [""]) == s + "" + Woven([], []);
    } else {
      var k := LineFeed(s, 0);
      var end := FirstLine(s);
      var more := LinesBreak(s[k + 1..]);
      OneMoreBreak(WithoutReturn(s[..k]), end, Lines(s[k + 1..]), more, s[k + 1..]);
      ends := [end] + more;
    }
  }

  /** Where the first of some lines ends in their text. */
  lemma FirstBreak(line: string, end: string, rest: string)
    requires EndsLine(line, end, false)
    ensures var s := line + end + rest;
            var k := LineFeed(s, 0);
            k < |s| && WithoutReturn(s[..k]) == line && s[k + 1..] == rest
  {
    var s := line + end + rest;
    var k := LineFeed(s, 0);
    var n := |line| + |end| - 1;
    assert s[n] == '\n';
    assert forall j :: 0 <= j < n ==> s[j] != '\n' by {
      assert forall j :: 0 <= j < |line| ==> s[j] == line[j];
    }
    assert k == n;
    assert s[..k] == if end == "\n" then line else line + "\r";
    if end == "\r\n" {
      assert Front(line + "\r") == line;
    }
  }

  lemma {:induction false} BreaksAreLines(lines: seq<string>, ends: seq<string>, s: string)
    requires Breaks(lines, ends, s)
    ensures lines == Lines(s)
    decreases |lines|
  {
    if lines != [] {
      var rest := Woven(lines[1..], ends[1..]);
      assert lines == [lines[0]] + lines[1..];
      BreaksAreLines(lines[1..], ends[1..], rest);
      if ends[0] == "" {
        assert lines[1..] == [] && s == lines[0];
      } else {
        FirstBreak(lines[0], ends[0], rest);
      }
    }
  }

  /** The lines sent are the lines of the body, and there is only one way to read them. */
  lemma LinesExactly(lines: seq<string>, s: string)
    ensures AreLines(lines, s) <==> lines == Lines(s)
  {
    var ends := LinesBreak(s);
    if more :| Breaks(lines, more, s) {
      BreaksAreLines(lines, more, s);
    }
  }

  /** What a receiver should find: five header lines, then the lines of the body. */
  ghost predicate IsDelivered(m: Message, lines: seq<string>) {
    && |lines| >= 5
    && lines[0] == "From: " + m.from
    && lines[1] == "To: " + Join(m.to)
    && lines[2] == "Subject: " + m.subject
    && lines[3] == "Content-Type: text/plain; charset=utf-8"
    && lines[4] == ""
    && AreLines(lines[5..], m.body)
  }

  /** No header carries a line break of its own. */
  ghost predicate HeadersUnbroken(m: Message) {
    Unbroken("From: " + m.from) && Unbroken("To: " + Join(m.to)) && Unbroken("Subject: " + m.subject)
  }

  lemma HeadersAreLines(m: Message, b: seq<string>)
    ensures var h := HeaderLines(m);
            && |h + b| == |b| + 5 && (h + b)[5..] == b
            && (h + b)[0] == "From: " + m.from && (h + b)[1] == "To: " + Join(m.to) && (h + b)[2] == "Subject: " + m.subject
            && (h + b)[3] == "Content-Type: text/plain; charset=utf-8" && (h + b)[4] == ""
  {
    assert "Content-Type: " + "text/plain; charset=utf-8" == "Content-Type: text/plain; charset=utf-8";
  }

  lemma ContentTypeUnbroken()
    ensures Unbroken("Content-Type: text/plain; charset=utf-8") && Unbroken("")
  {
  }

  lemma AllUnbroken(m: Message, all: seq<string>)
    requires HeadersUnbroken(m) && all == HeaderLines(m) + Lines(m.body)
    ensures forall i :: 0 <= i < |all| ==> Unbroken(all[i])
  {
    HeadersAreLines(m, Lines(m.body));
    ContentTypeUnbroken();
    BodyLinesUnbroken(m.body);
    forall i | 0 <= i < |all|
      ensures Unbroken(all[i])
    {
      if i >= 5 {
        assert all[i] == all[5..][i - 5];
      }
    }
  }

  lemma TextReads(m: Message, after: string)
    requires HeadersUnbroken(m)
    ensures Receive(TextOf(m) + after) == Some(Delivery(HeaderLines(m) + Lines(m.body), after))
  {
    AllUnbroken(m, HeaderLines(m) + Lines(m.body));
    LinesRead(HeaderLines(m) + Lines(m.body), after);
  }

  lemma LinesAreDelivered(m: Message)
    ensures IsDelivered(m, HeaderLines(m) + Lines(m.body))
  {
    HeadersAreLines(m, Lines(m.body));
    LinesExactly(Lines(m.body), m.body);
  }

  /**
   Whatever the body, the receiver gets the header lines and then exactly the body's lines,
   and stops at the final dot: precisely when no header line has a line break inside it.
   */
  lemma MailComesBackExactly(m: Message, after: string)
    ensures (var d := Receive(TextOf(m) + after); d.Some? && d.value.rest == after && IsDelivered(m, d.value.lines))
       <==> HeadersUnbroken(m)
  {
    if HeadersUnbroken(m) {
      TextReads(m, after);
      LinesAreDelivered(m);
    }
    ReceivedUnbroken(TextOf(m) + after);
  }

  // The recipients.

  predicate CommaAt(s: string, i: nat) {
    i + 1 < |s| && s[i] == ',' && s[i + 1] == ' '
  }

  function CommaFrom(s: string, i: nat): (k: nat)
    requires i <= |s|
    ensures i <= k <= |s| && (k < |s| ==> CommaAt(s, k))
    ensures forall j :: i <= j < k ==> !CommaAt(s, j)
    decreases |s| - i
  {
    if i == |s| || CommaAt(s, i) then i else CommaFrom(s, i + 1)
  }

  /** The addresses a reader takes from the text of a header: split at each comma and space. */
  function Addresses(s: string): seq<string>
    decreases |s|
  {
    var k := CommaFrom(s, 0);
    if k == |s| then [s] else [s[..k]] + Addresses(s[k + 2..])
  }

  /** Every recipient comes back in order, whenever none of them holds a comma and a space. */
  lemma {:induction false} RecipientsComeBack(to: seq<string>)
    requires to != [] && forall i, j :: 0 <= i < |to| && 0 <= j < |to[i]| ==> !CommaAt(to[i], j)
    ensures Addresses(Join(to)) == to
  {
    if |to| > 1 {
      RecipientsComeBack(to[1..]);
      FirstAddress(to[0], Join(to[1..]));
      assert to == [to[0]] + to[1..];
    } else {
      assert to == [to[0]];
    }
  }

  lemma FirstAddress(first: string, rest: string)
    requires forall j :: 0 <= j < |first| ==> !CommaAt(first, j)
    ensures Addresses(first + ", " + rest) == [first] + Addresses(rest)
  {
    var s := first + ", " + rest;
    assert CommaAt(s, |first|);
    forall j | 0 <= j < |first|
      ensures !CommaAt(s, j)
    {
      assert !CommaAt(first, j);
    }
    assert s[..|first|] == first && s[|first| + 2..] == rest;
  }
}
