/**
 What the SMTP sender writes after DATA, and what a receiver following section 4.5.2 of
 RFC 5321 reads out of it.
 */
module Mail {
  import opened Common

  const CRLF := "\r\n"

  datatype Email = Email(sender: string, recipient: string, subject: string, contentType: string, body: string)

  // ===== the sender =====

  /** `replace("\r\n", "\n")`. */
  function CrlfToLf(s: string): string {
    if s == [] then []
    else if CRLF <= s then "\n" + CrlfToLf(s[2..])
    else [s[0]] + CrlfToLf(s[1..])
  }

  /** `replace('\n', "\r\n")`. */
  function LfToCrlf(s: string): string {
    if s == [] then []
    else (if s[0] == '\n' then CRLF else [s[0]]) + LfToCrlf(s[1..])
  }

  /** `split("\r\n")`. */
  function SplitCrlf(s: string): (r: seq<string>)
    ensures |r| >= 1
  {
    if s == [] then [""]
    else if CRLF <= s then [""] + SplitCrlf(s[2..])
    else
      var rest := SplitCrlf(s[1..]);
      [[s[0]] + rest[0]] + rest[1..]
  }

  function Join(lines: seq<string>): string
    requires |lines| >= 1
  {
    if |lines| == 1 then lines[0] else lines[0] + CRLF + Join(lines[1..])
  }

  function Stuff(line: string): string {
    if "." <= line then "." + line else line
  }

  function Stuffed(lines: seq<string>): (r: seq<string>)
    ensures |r| == |lines|
  {
    seq(|lines|, i requires 0 <= i < |lines| => Stuff(lines[i]))
  }

  function DotStuff(body: string): string {
    Join(Stuffed(SplitCrlf(LfToCrlf(CrlfToLf(body)))))
  }

  /** CR, LF and NUL become spaces. */
  function HeaderScrub(s: string): (r: string)
    ensures |r| == |s| && '\r' !in r && '\n' !in r && '\0' !in r
    ensures '\r' !in s && '\n' !in s && '\0' !in s ==> r == s
  {
    seq(|s|, i requires 0 <= i < |s| => if s[i] in {'\r', '\n', '\0'} then ' ' else s[i])
  }

  function HeaderLines(m: Email): seq<string> {
    ["From: " + HeaderScrub(m.sender), "To: " + HeaderScrub(m.recipient),
     "Subject: " + HeaderScrub(m.subject), "Content-Type: " + HeaderScrub(m.contentType)]
  }

  function Headers(m: Email): string {
    "From: " + HeaderScrub(m.sender) + "\r\nTo: " + HeaderScrub(m.recipient)
    + "\r\nSubject: " + HeaderScrub(m.subject) + "\r\nContent-Type: " + HeaderScrub(m.contentType) + "\r\n\r\n"
  }

  function Payload(m: Email): string {
    Headers(m) + DotStuff(m.body) + "\r\n.\r\n"
  }

  function MailFrom(m: Email): string {
    "MAIL FROM:<" + HeaderScrub(m.sender) + ">\r\n"
  }

  function RcptTo(m: Email): string {
    "RCPT TO:<" + HeaderScrub(m.recipient) + ">\r\n"
  }

  // ===== the receiver =====

  datatype Received = Received(lines: seq<string>, left: seq<string>)

  /** Lines up to the first lone dot, one leading dot removed from each; None if there is no lone dot. */
  function Receive(lines: seq<string>): Option<Received> {
    if lines == [] then None
    else if lines[0] == "." then Some(Received([], lines[1..]))
    else match Receive(lines[1..])
      case None => None
      case Some(r) => Some(Received([if "." <= lines[0] then lines[0][1..] else lines[0]] + r.lines, r.left))
  }

  /** The lines of a text whose lines end in LF or CRLF. */
  function TextLines(s: string): (r: seq<string>)
    ensures |r| >= 1
    ensures forall i :: 0 <= i < |r| ==> '\n' !in r[i]
  {
    if s == [] then [""]
    else if s[0] == '\n' then [""] + TextLines(s[1..])
    else if CRLF <= s then [""] + TextLines(s[2..])
    else
      var rest := TextLines(s[1..]);
      [[s[0]] + rest[0]] + rest[1..]
  }

  // ===== proofs =====

  lemma {:induction false} SplitFirstLine(line: string, rest: string)
    requires '\n' !in line
    ensures SplitCrlf(line + CRLF + rest) == [line] + SplitCrlf(rest)
    decreases |line|
  {
    var s := line + CRLF + rest;
    if line == [] {
      assert s == CRLF + rest && s[2..] == rest;
    } else {
      assert s[0] == line[0] && s[1] == (if |line| > 1 then line[1] else '\r');
      assert !(CRLF <= s);
      assert s[1..] == line[1..] + CRLF + rest;
      SplitFirstLine(line[1..], rest);
      assert [line[0]] + line[1..] == line;
      assert ([line[1..]] + SplitCrlf(rest))[1..] == SplitCrlf(rest);
    }
  }

  lemma CrlfHasLf(s: string)
    requires CRLF <= s
    ensures '\n' in s
  {
    assert s[1] == CRLF[1];
  }

  lemma {:induction false} SplitOneLine(line: string)
    requires '\n' !in line
    ensures SplitCrlf(line) == [line]
    decreases |line|
  {
    if line != [] {
      if CRLF <= line {
        CrlfHasLf(line);
        assert false;
      }
      SplitOneLine(line[1..]);
      assert [line[0]] + line[1..] == line;
    }
  }

  /** Lines without LF come back from their CRLF join. */
  lemma {:induction false} SplitJoin(lines: seq<string>)
    requires |lines| >= 1 && forall i :: 0 <= i < |lines| ==> '\n' !in lines[i]
    ensures SplitCrlf(Join(lines)) == lines
    decreases |lines|
  {
    if |lines| == 1 {
      SplitOneLine(lines[0]);
    } else {
      SplitJoin(lines[1..]);
      SplitFirstLine(lines[0], Join(lines[1..]));
    }
  }

  lemma {:induction false} JoinTwo(a: seq<string>, b: seq<string>)
    requires |a| >= 1 && |b| >= 1
    ensures Join(a + b) == Join(a) + CRLF + Join(b)
    decreases |a|
  {
    if |a| == 1 {
      assert (a + b)[1..] == b;
    } else {
      assert (a + b)[1..] == a[1..] + b;
      JoinTwo(a[1..], b);
    }
  }

  lemma JoinStep(line: string, rest: seq<string>)
    requires |rest| >= 1
    ensures Join([line] + rest) == line + CRLF + Join(rest)
  {
    assert ([line] + rest)[1..] == rest;
  }

  lemma JoinPrepend(c: char, line: string, rest: seq<string>)
    ensures Join([[c] + line] + rest) == [c] + Join([line] + rest)
  {
    if rest == [] {
      assert [[c] + line] + rest == [[c] + line] && [line] + rest == [line];
    } else {
      JoinStep([c] + line, rest);
      JoinStep(line, rest);
      PrependFlat(c, line, Join(rest));
    }
  }

  lemma PrependFlat(c: char, line: string, below: string)
    ensures [c] + line + CRLF + below == [c] + (line + CRLF + below)
  {
  }

  /** Normalising a body writes its lines with CRLF between them. */
  lemma {:induction false} NormalisedIsJoined(s: string)
    ensures LfToCrlf(CrlfToLf(s)) == Join(TextLines(s))
    decreases |s|
  {
    if s == [] {
    } else if s[0] == '\n' {
      NormalisedIsJoined(s[1..]);
      assert CrlfToLf(s) == "\n" + CrlfToLf(s[1..]);
      LfFirst(CrlfToLf(s[1..]));
      EmptyFirst(TextLines(s[1..]));
    } else if CRLF <= s {
      NormalisedIsJoined(s[2..]);
      LfFirst(CrlfToLf(s[2..]));
      EmptyFirst(TextLines(s[2..]));
    } else {
      NormalisedIsJoined(s[1..]);
      assert CrlfToLf(s) == [s[0]] + CrlfToLf(s[1..]);
      assert ([s[0]] + CrlfToLf(s[1..]))[1..] == CrlfToLf(s[1..]);
      var rest := TextLines(s[1..]);
      assert [rest[0]] + rest[1..] == rest;
      JoinPrepend(s[0], rest[0], rest[1..]);
    }
  }

  lemma LfFirst(s: string)
    ensures LfToCrlf("\n" + s) == CRLF + LfToCrlf(s)
  {
    assert ("\n" + s)[1..] == s;
  }

  lemma EmptyFirst(lines: seq<string>)
    requires |lines| >= 1
    ensures Join([""] + lines) == CRLF + Join(lines)
  {
    assert ([""] + lines)[1..] == lines;
    assert "" + CRLF + Join(lines) == CRLF + Join(lines);
  }

  lemma DotStuffIsJoined(body: string)
    ensures DotStuff(body) == Join(Stuffed(TextLines(body)))
  {
    NormalisedIsJoined(body);
    SplitJoin(TextLines(body));
  }

  /** The payload as lines, the lone dot and nothing after it last. */
  function PayloadLines(m: Email): seq<string> {
    HeaderLines(m) + [""] + Stuffed(TextLines(m.body)) + [".", ""]
  }

  lemma PayloadIsJoined(m: Email)
    ensures Payload(m) == Join(PayloadLines(m))
  {
    var hs := HeaderLines(m);
    var body := Stuffed(TextLines(m.body));
    DotStuffIsJoined(m.body);
    assert Join([".", ""]) == ".\r\n" by {
      assert [".", ""][1..] == [""];
    }
    JoinTwo(hs + [""] + body, [".", ""]);
    JoinTwo(hs + [""], body);
    HeadersAreJoined(m);
    assert Payload(m) == Headers(m) + Join(body) + CRLF + ".\r\n";
  }

  lemma JoinFour(a: string, b: string, c: string, d: string)
    ensures Join([a, b, c, d, ""]) == a + CRLF + (b + CRLF + (c + CRLF + (d + CRLF)))
  {
    assert [a, b, c, d, ""] == [a] + ([b] + ([c] + ([d] + [""])));
    JoinStep(d, [""]);
    assert d + CRLF + "" == d + CRLF;
    JoinStep(c, [d] + [""]);
    JoinStep(b, [c] + ([d] + [""]));
    JoinStep(a, [b] + ([c] + ([d] + [""])));
  }

  /** The four lines written one after another, each with its CRLF. */
  lemma FourLinesFlat(a: string, b: string, c: string, d: string)
    ensures a + CRLF + (b + CRLF + (c + CRLF + (d + CRLF))) + CRLF == a + CRLF + b + CRLF + c + CRLF + d + CRLF + CRLF
  {
  }

  lemma HeadersAreJoined(m: Email)
    ensures Headers(m) == Join(HeaderLines(m) + [""]) + CRLF
  {
    var hs := HeaderLines(m);
    assert hs + [""] == [hs[0], hs[1], hs[2], hs[3], ""];
    JoinFour(hs[0], hs[1], hs[2], hs[3]);
    FourLinesFlat(hs[0], hs[1], hs[2], hs[3]);
    HeadersFlat(m);
  }

  lemma HeadersFlat(m: Email)
    ensures var hs := HeaderLines(m);
      Headers(m) == hs[0] + CRLF + hs[1] + CRLF + hs[2] + CRLF + hs[3] + CRLF + CRLF
  {
    var hs := HeaderLines(m);
    assert "\r\nTo: " == CRLF + "To: " && "\r\nSubject: " == CRLF + "Subject: ";
    assert "\r\nContent-Type: " == CRLF + "Content-Type: " && "\r\n\r\n" == CRLF + CRLF;
    InsertLine(hs[0], "To: ", HeaderScrub(m.recipient));
    InsertLine(hs[0] + CRLF + hs[1], "Subject: ", HeaderScrub(m.subject));
    InsertLine(hs[0] + CRLF + hs[1] + CRLF + hs[2], "Content-Type: ", HeaderScrub(m.contentType));
    var all := hs[0] + CRLF + hs[1] + CRLF + hs[2] + CRLF + hs[3];
    assert all + (CRLF + CRLF) == all + CRLF + CRLF;
  }

  lemma InsertLine(before: string, name: string, value: string)
    ensures before + (CRLF + name) + value == before + CRLF + (name + value)
  {
  }

  lemma StuffedIsSafe(line: string)
    ensures Stuff(line) != "." && ("." <= Stuff(line) <==> "." <= line) && ("." <= line ==> Stuff(line)[1..] == line)
    ensures '\n' !in line ==> '\n' !in Stuff(line)
  {
    if "." <= line {
      assert Stuff(line) == "." + line && Stuff(line)[1..] == line;
    }
  }

  lemma StuffedFirst(lines: seq<string>, after: seq<string>)
    requires lines != []
    ensures var all := Stuffed(lines) + ["."] + after;
      all[0] == Stuff(lines[0]) && all[1..] == Stuffed(lines[1..]) + ["."] + after
  {
    assert Stuffed(lines) == [Stuff(lines[0])] + Stuffed(lines[1..]);
  }

  /** Stuffed lines read back as the lines, up to the dot that follows. */
  lemma {:induction false} StuffedReadsBack(lines: seq<string>, after: seq<string>)
    ensures Receive(Stuffed(lines) + ["."] + after) == Some(Received(lines, after))
    decreases |lines|
  {
    var all := Stuffed(lines) + ["."] + after;
    if lines == [] {
      assert all[0] == "." && all[1..] == after;
    } else {
      StuffedIsSafe(lines[0]);
      StuffedFirst(lines, after);
      StuffedReadsBack(lines[1..], after);
      assert [lines[0]] + lines[1..] == lines;
    }
  }

  /** Lines that do not start with a dot are stuffed as they are. */
  lemma PlainLinesUnchanged(m: Email)
    ensures Stuffed(HeaderLines(m) + [""] + TextLines(m.body)) == HeaderLines(m) + [""] + Stuffed(TextLines(m.body))
  {
    var hs := HeaderLines(m) + [""];
    forall i | 0 <= i < |hs|
      ensures Stuff(hs[i]) == hs[i]
    {
      assert hs[i] == "" || hs[i][0] in {'F', 'T', 'S', 'C'};
    }
  }

  lemma NoLfInHeaders(m: Email)
    ensures forall i :: 0 <= i < |HeaderLines(m)| ==> '\n' !in HeaderLines(m)[i]
  {
  }

  /**
   For every message, whatever its fields and body hold: the receiver recovers exactly the four
   header lines, an empty line and the lines of the body, and nothing is left after the dot.
   */
  lemma ReceiverRecoversMessage(m: Email)
    ensures Receive(SplitCrlf(Payload(m))) == Some(Received(HeaderLines(m) + [""] + TextLines(m.body), [""]))
  {
    var lines := HeaderLines(m) + [""] + TextLines(m.body);
    PayloadIsJoined(m);
    NoLfInHeaders(m);
    var ps := PayloadLines(m);
    forall i | 0 <= i < |ps|
      ensures '\n' !in ps[i]
    {
      PayloadLineHasNoLf(m, i);
    }
    SplitJoin(ps);
    PlainLinesUnchanged(m);
    assert ps == Stuffed(lines) + ["."] + [""];
    StuffedReadsBack(lines, [""]);
  }

  lemma PayloadLineHasNoLf(m: Email, i: nat)
    requires i < |PayloadLines(m)|
    ensures '\n' !in PayloadLines(m)[i]
  {
    NoLfInHeaders(m);
    var body := TextLines(m.body);
    if 5 <= i < 5 + |body| {
      StuffedIsSafe(body[i - 5]);
      assert PayloadLines(m)[i] == Stuff(body[i - 5]);
    }
  }

  /** No address can end its command early: each envelope command is one line. */
  lemma EnvelopeCommandsAreOneLine(m: Email)
    ensures SplitCrlf(MailFrom(m)) == ["MAIL FROM:<" + HeaderScrub(m.sender) + ">", ""]
    ensures SplitCrlf(RcptTo(m)) == ["RCPT TO:<" + HeaderScrub(m.recipient) + ">", ""]
  {
    var from := "MAIL FROM:<" + HeaderScrub(m.sender) + ">";
    var to := "RCPT TO:<" + HeaderScrub(m.recipient) + ">";
    SplitFirstLine(from, "");
    SplitFirstLine(to, "");
    assert from + CRLF + "" == MailFrom(m) && to + CRLF + "" == RcptTo(m);
  }

  /** Scrubbing puts a space for each CR, LF and NUL and keeps every other character in its place. */
  lemma HeaderScrubExact(s: string, i: nat)
    requires i < |s|
    ensures s[i] == '\r' || s[i] == '\n' || s[i] as int == 0 ==> HeaderScrub(s)[i] == ' '
    ensures s[i] != '\r' && s[i] != '\n' && s[i] as int != 0 ==> HeaderScrub(s)[i] == s[i]
  {
  }
}
