/** The macOS process inspector: the text of `ps -axo pid,ppid,rss,command`
    is turned into process samples. Running `ps` itself is outside the model;
    its standard output is the input. */
module MacInspector {
  import opened Wrappers
  import opened Text
  import opened Types

  // ---------------------------------------------------------------------------
  // One line

  /** What one listing line contributes: nothing, a sample, or an error that
      ends the whole parse. */
  datatype LineOutcome = Skip | Sample(sample: ProcessSample) | Fail(msg: string)

  /** One line after the header, trimmed: blank lines are skipped, the rest
      are split on whitespace. */
  function ParseLine(line: string): (r: LineOutcome)
    ensures Trim(line) == [] ==> r == Skip
  {
    var t := Trim(line);
    if t == [] then Skip else ParseTokens(SplitWhitespace(t))
  }

  /** The tokens of one line: the first three are pid, ppid and rss, the rest
      re-joined by single spaces is the command. A missing token or an empty
      command skips the line; a token that is there but does not parse is an
      error. */
  function ParseTokens(parts: seq<string>): (r: LineOutcome)
    ensures r.Sample? ==> |parts| >= 4 && r.sample.command != []
    ensures r.Sample? ==> IsI32(r.sample.pid) && IsI32(r.sample.ppid) && r.sample.rssKib <= U64_MAX
  {
    if |parts| < 1 then Skip
    else if ParseI32(parts[0]).None? then Fail("Failed to parse PID from: " + parts[0])
    else if |parts| < 2 then Skip
    else if ParseI32(parts[1]).None? then Fail("Failed to parse PPID from: " + parts[1])
    else if |parts| < 3 then Skip
    else if ParseU64(parts[2]).None? then Fail("Failed to parse RSS from: " + parts[2])
    else
      var command := Join(parts[3..], " ");
      if command == [] then Skip
      else Sample(ProcessSample(ParseI32(parts[0]).value, ParseI32(parts[1]).value,
                                ParseU64(parts[2]).value, command))
  }

  function Outcomes(rows: seq<string>): (outs: seq<LineOutcome>)
    ensures |outs| == |rows|
    ensures forall i :: 0 <= i < |rows| ==> outs[i] == ParseLine(rows[i])
  {
    seq(|rows|, i requires 0 <= i < |rows| => ParseLine(rows[i]))
  }

  /** The outcomes of the lines after the header, in order: the first error
      ends the parse, otherwise every accepted line gives one sample. */
  function Collect(outs: seq<LineOutcome>): Result<seq<ProcessSample>> {
    if outs == [] then Ok([])
    else
      var prev := Collect(outs[..|outs| - 1]);
      if prev.Err? then prev
      else
        match outs[|outs| - 1]
        case Skip => prev
        case Fail(m) => Err(m)
        case Sample(s) => Ok(prev.value + [s])
  }

  /** The whole output: the first line is the column header and is ignored. */
  function PsListing(output: string): Result<seq<ProcessSample>> {
    var lines := Lines(output);
    if lines == [] then Ok([]) else Collect(Outcomes(lines[1..]))
  }

  /** The samples of the accepted lines, in order: the reference `Collect`
      is compared with. */
  function Accepted(outs: seq<LineOutcome>): seq<ProcessSample> {
    if outs == [] then []
    else
      var prev := Accepted(outs[..|outs| - 1]);
      match outs[|outs| - 1]
      case Sample(s) => prev + [s]
      case _ => prev
  }

  // ---------------------------------------------------------------------------
  // The parser

  /** The body of `parse_ps_output`'s loop for one line after the header:
      `Skip` is a `continue`, `Fail` a `bail!`. */
  method ParseRowLine(row: string) returns (o: LineOutcome)
    ensures o == ParseLine(row)
  {
    var line := Trim(row);
    if line == [] {
      return Skip;
    }
    var parts := SplitWhitespace(line);
    if |parts| < 1 {
      return Skip;
    }
    var pid := ParseI32(parts[0]);
    if pid.None? {
      return Fail("Failed to parse PID from: " + parts[0]);
    }
    if |parts| < 2 {
      return Skip;
    }
    var ppid := ParseI32(parts[1]);
    if ppid.None? {
      return Fail("Failed to parse PPID from: " + parts[1]);
    }
    if |parts| < 3 {
      return Skip;
    }
    var rssKib := ParseU64(parts[2]);
    if rssKib.None? {
      return Fail("Failed to parse RSS from: " + parts[2]);
    }
    var command := Join(parts[3..], " ");
    if command == [] {
      return Skip;
    }
    return Sample(ProcessSample(pid.value, ppid.value, rssKib.value, command));
  }

  /** `parse_ps_output`: skip the header, stop at the first bad line. */
  method ParsePsOutput(output: string) returns (r: Result<seq<ProcessSample>>)
    ensures r == PsListing(output)
  {
    var lines := Lines(output);
    if lines == [] {
      return Ok([]);
    }
    ghost var outs := Outcomes(lines[1..]);
    var processes: seq<ProcessSample> := [];
    for lineNum := 1 to |lines|
      invariant Collect(outs[..lineNum - 1]) == Ok(processes)
    {
      CollectStep(outs, lineNum - 1);
      var o := ParseRowLine(lines[lineNum]);
      assert o == outs[lineNum - 1];
      match o
      case Skip =>
      case Fail(m) =>
        ErrStops(outs, lineNum);
        return Err(m);
      case Sample(s) =>
        processes := processes + [s];
    }
    assert outs[..|lines| - 1] == outs;
    r := Ok(processes);
  }

  /** `Collect` on one more outcome. */
  lemma CollectStep(outs: seq<LineOutcome>, k: nat)
    requires k < |outs|
    ensures Collect(outs[..k + 1]) == (var prev := Collect(outs[..k]);
      if prev.Err? then prev
      else match outs[k]
        case Skip => prev
        case Fail(m) => Err(m)
        case Sample(s) => Ok(prev.value + [s]))
  {
    assert outs[..k + 1][..k] == outs[..k];
  }

  /** An error in the first `k` outcomes is the result of them all. */
  lemma ErrStops(outs: seq<LineOutcome>, k: nat)
    requires k <= |outs| && Collect(outs[..k]).Err?
    ensures Collect(outs) == Collect(outs[..k])
  {
    ErrPersists(outs[..k], outs[k..]);
    assert outs[..k] + outs[k..] == outs;
  }

  /** Once a prefix has failed, later lines do not change the result. */
  lemma {:induction false} ErrPersists(a: seq<LineOutcome>, b: seq<LineOutcome>)
    requires Collect(a).Err?
    ensures Collect(a + b) == Collect(a)
  {
    if b != [] {
      var c := b[..|b| - 1];
      assert (a + b)[..|a + b| - 1] == a + c;
      ErrPersists(a, c);
    } else {
      assert a + b == a;
    }
  }

  // ---------------------------------------------------------------------------
  // What the parse means

  /** The parse succeeds exactly when no line fails, and then yields one
      sample per accepted line, in input order. */
  lemma {:induction false} CollectOk(outs: seq<LineOutcome>)
    ensures Collect(outs).Ok? <==> forall i :: 0 <= i < |outs| ==> !outs[i].Fail?
    ensures Collect(outs).Ok? ==> Collect(outs).value == Accepted(outs)
  {
    if outs != [] {
      var init := outs[..|outs| - 1];
      CollectOk(init);
      assert forall i :: 0 <= i < |init| ==> init[i] == outs[i];
    }
  }

  /** An error is the message of the first failing line. */
  lemma {:induction false} CollectErr(outs: seq<LineOutcome>)
    requires Collect(outs).Err?
    ensures exists i :: 0 <= i < |outs| && outs[i].Fail? && Collect(outs).msg == outs[i].msg
                        && forall j :: 0 <= j < i ==> !outs[j].Fail?
  {
    var init := outs[..|outs| - 1];
    assert forall i :: 0 <= i < |init| ==> init[i] == outs[i];
    if Collect(init).Err? {
      CollectErr(init);
    } else {
      CollectOk(init);
      var i := |outs| - 1;
      assert outs[i].Fail? && Collect(outs).msg == outs[i].msg;
    }
  }

  /** Whatever the first line holds, it is never parsed. */
  lemma HeaderIgnored(header: string, rows: seq<string>)
    requires PlainLine(header)
    requires forall i :: 0 <= i < |rows| ==> PlainLine(rows[i])
    ensures PsListing(Unlines([header] + rows)) == Collect(Outcomes(rows))
  {
    LinesOfUnlines([header] + rows);
    assert ([header] + rows)[1..] == rows;
  }

  // ---------------------------------------------------------------------------
  // The command column

  /** Words separated by single spaces, with no whitespace at either end. */
  predicate SingleSpaced(s: string) {
    s == [] ||
    (&& !IsWhitespace(s[0]) && !IsWhitespace(s[|s| - 1])
     && forall i :: 0 <= i < |s| - 1 && IsWhitespace(s[i]) ==> s[i] == ' ' && !IsWhitespace(s[i + 1]))
  }

  lemma {:induction false} JoinSingleSpaced(ws: seq<string>)
    requires forall i :: 0 <= i < |ws| ==> IsWord(ws[i])
    ensures SingleSpaced(Join(ws, " "))
    ensures ws != [] ==> Join(ws, " ") != []
  {
    if |ws| > 1 {
      var w := ws[0];
      var rest := Join(ws[1..], " ");
      JoinSingleSpaced(ws[1..]);
      var s := w + " " + rest;
      assert Join(ws, " ") == s;
      forall i | 0 <= i < |s| - 1 && IsWhitespace(s[i])
        ensures s[i] == ' ' && !IsWhitespace(s[i + 1])
      {
        if i > |w| {
          assert s[i] == rest[i - |w| - 1] && s[i + 1] == rest[i - |w|];
        } else if i == |w| {
          assert s[i + 1] == rest[0];
        }
      }
    }
  }

  /** The command of an accepted line is the tokens after rss, joined by
      single spaces: runs of whitespace inside the command collapse. */
  lemma CommandCollapses(line: string)
    requires ParseLine(line).Sample?
    ensures var toks := SplitWhitespace(Trim(line));
      && ParseLine(line).sample.command == Join(toks[3..], " ")
      && SplitWhitespace(ParseLine(line).sample.command) == toks[3..]
      && SingleSpaced(ParseLine(line).sample.command)
  {
    var toks := SplitWhitespace(Trim(line));
    assert Trim(line) != [];
    assert ParseLine(line) == ParseTokens(toks);
    assert |toks| >= 4;
    var rest := toks[3..];
    assert ParseLine(line).sample.command == Join(rest, " ");
    SplitWhitespaceWords(Trim(line));
    assert forall i :: 0 <= i < |rest| ==> rest[i] == toks[i + 3];
    SplitJoinedWords(rest);
    JoinSingleSpaced(rest);
  }

  // ---------------------------------------------------------------------------
  // Lines as `ps` prints them

  predicate AllWhitespace(s: string) {
    forall i :: 0 <= i < |s| ==> IsWhitespace(s[i])
  }

  lemma {:induction false} TrimPadded(pad: string, s: string)
    requires AllWhitespace(pad)
    requires s != [] && !IsWhitespace(s[0]) && !IsWhitespace(s[|s| - 1])
    ensures Trim(pad + s) == s
  {
    if pad == [] {
      assert pad + s == s;
    } else {
      assert (pad + s)[1..] == pad[1..] + s;
      TrimPadded(pad[1..], s);
    }
  }

  /** A row as `ps` right-aligns it: leading blanks, then pid, ppid and rss,
      each followed by a run of blanks, then the command's words one space
      apart. */
  function Row(pad: string, pid: int, g1: string, ppid: int, g2: string, rssKib: nat, g3: string,
               words: seq<string>): string
  {
    pad + IntToString(pid) + g1 + IntToString(ppid) + g2 + NatToString(rssKib) + g3 + Join(words, " ")
  }

  /** A column separator: one or more whitespace characters. */
  predicate Gap(g: string) {
    g != [] && AllWhitespace(g)
  }

  predicate AllWords(ws: seq<string>) {
    forall i :: 0 <= i < |ws| ==> IsWord(ws[i])
  }

  /** A well-formed row parses back to the sample it was printed from,
      however wide its column gaps. */
  lemma ParseRow(pad: string, pid: int, g1: string, ppid: int, g2: string, rssKib: nat, g3: string,
                 words: seq<string>)
    requires AllWhitespace(pad) && Gap(g1) && Gap(g2) && Gap(g3)
    requires IsI32(pid) && IsI32(ppid) && rssKib <= U64_MAX
    requires words != [] && AllWords(words)
    ensures ParseLine(Row(pad, pid, g1, ppid, g2, rssKib, g3, words))
         == Sample(ProcessSample(pid, ppid, rssKib, Join(words, " ")))
  {
    IntToStringIsWord(pid);
    IntToStringIsWord(ppid);
    NatToStringIsWord(rssKib);
    ParseI32OfIntToString(pid);
    ParseI32OfIntToString(ppid);
    ParseU64OfNatToString(rssKib);
    ParseFields(pad, IntToString(pid), g1, IntToString(ppid), g2, NatToString(rssKib), g3, words,
                pid, ppid, rssKib);
  }

  /** The same row with its three number columns as text. */
  lemma ParseFields(pad: string, p: string, g1: string, q: string, g2: string, r: string, g3: string,
                    words: seq<string>, pid: int, ppid: int, rssKib: nat)
    requires AllWhitespace(pad) && Gap(g1) && Gap(g2) && Gap(g3)
    requires IsWord(p) && IsWord(q) && IsWord(r)
    requires ParseI32(p) == Some(pid) && ParseI32(q) == Some(ppid) && ParseU64(r) == Some(rssKib)
    requires words != [] && AllWords(words)
    ensures ParseLine(pad + p + g1 + q + g2 + r + g3 + Join(words, " "))
         == Sample(ProcessSample(pid, ppid, rssKib, Join(words, " ")))
  {
    var cmd := Join(words, " ");
    var body := p + (g1 + (q + (g2 + (r + (g3 + cmd)))));
    JoinSingleSpaced(words);
    RowBody(pad, p, g1, q, g2, r, g3, cmd);
    TrimPadded(pad, body);
    RowTokens(p, g1, q, g2, r, g3, cmd, words);
    ParseTokensOf(p, q, r, words, pid, ppid, rssKib);
  }

  /** The row regrouped as padding and a body that starts with the pid and
      ends with the command. */
  lemma RowBody(pad: string, p: string, g1: string, q: string, g2: string, r: string, g3: string, cmd: string)
    requires p != [] && cmd != []
    ensures var body := p + (g1 + (q + (g2 + (r + (g3 + cmd)))));
      && pad + p + g1 + q + g2 + r + g3 + cmd == pad + body
      && body[0] == p[0] && body[|body| - 1] == cmd[|cmd| - 1]
  {
  }

  /** Three number tokens and a command, gap-separated, split into the three
      tokens followed by the command's words. */
  lemma RowTokens(p: string, g1: string, q: string, g2: string, r: string, g3: string, cmd: string,
                  words: seq<string>)
    requires IsWord(p) && IsWord(q) && IsWord(r) && Gap(g1) && Gap(g2) && Gap(g3)
    requires AllWords(words) && cmd == Join(words, " ")
    ensures SplitWhitespace(p + (g1 + (q + (g2 + (r + (g3 + cmd)))))) == [p, q, r] + words
  {
    SplitJoinedWords(words);
    SplitThreeWords(p, g1, q, g2, r, g3, cmd);
  }

  lemma SplitThreeWords(p: string, g1: string, q: string, g2: string, r: string, g3: string, cmd: string)
    requires IsWord(p) && IsWord(q) && IsWord(r) && Gap(g1) && Gap(g2) && Gap(g3)
    ensures SplitWhitespace(p + (g1 + (q + (g2 + (r + (g3 + cmd)))))) == [p, q, r] + SplitWhitespace(cmd)
  {
    var s3 := r + (g3 + cmd);
    var s2 := q + (g2 + s3);
    SplitAfterGap(r, g3, cmd);
    SplitAfterGap(q, g2, s3);
    SplitAfterGap(p, g1, s2);
  }

  /** A word, a gap and the rest: the word is one token, the gap vanishes. */
  lemma SplitAfterGap(w: string, g: string, s: string)
    requires IsWord(w) && Gap(g)
    ensures SplitWhitespace(w + (g + s)) == [w] + SplitWhitespace(s)
  {
    assert (g + s)[0] == g[0];
    SplitWordThen(w, g + s);
    SkipGap(g, s);
  }

  lemma {:induction false} SkipGap(g: string, s: string)
    requires AllWhitespace(g)
    ensures SplitWhitespace(g + s) == SplitWhitespace(s)
  {
    if g != [] {
      assert g + s == [g[0]] + (g[1..] + s);
      SplitSkipsWhitespace(g[0], g[1..] + s);
      SkipGap(g[1..], s);
    } else {
      assert g + s == s;
    }
  }

  /** Three tokens that parse as pid, ppid and rss, then a non-empty command. */
  lemma ParseTokensOf(p: string, q: string, r: string, words: seq<string>, pid: int, ppid: int, rssKib: nat)
    requires ParseI32(p) == Some(pid) && ParseI32(q) == Some(ppid) && ParseU64(r) == Some(rssKib)
    requires Join(words, " ") != []
    ensures ParseTokens([p, q, r] + words) == Sample(ProcessSample(pid, ppid, rssKib, Join(words, " ")))
  {
    var toks := [p, q, r] + words;
    assert toks[0] == p && toks[1] == q && toks[2] == r;
    assert toks[3..] == words;
  }

  /** A listing whose every line after the header is accepted gives one
      sample per line, in order. */
  lemma ListingOfRows(header: string, rows: seq<string>, samples: seq<ProcessSample>)
    requires PlainLine(header) && forall i :: 0 <= i < |rows| ==> PlainLine(rows[i])
    requires |rows| == |samples|
    requires forall i :: 0 <= i < |rows| ==> ParseLine(rows[i]) == Sample(samples[i])
    ensures PsListing(Unlines([header] + rows)) == Ok(samples)
  {
    HeaderIgnored(header, rows);
    var outs := Outcomes(rows);
    CollectOk(outs);
    AcceptedAll(outs, samples);
  }

  lemma {:induction false} AcceptedAll(outs: seq<LineOutcome>, samples: seq<ProcessSample>)
    requires |outs| == |samples| && forall i :: 0 <= i < |outs| ==> outs[i] == Sample(samples[i])
    ensures Accepted(outs) == samples
  {
    if outs != [] {
      var n := |outs| - 1;
      AcceptedAll(outs[..n], samples[..n]);
      assert samples[..n] + [samples[n]] == samples;
    }
  }

  lemma ListingOfThree(header: string, r1: string, r2: string, r3: string,
                       s1: ProcessSample, s2: ProcessSample, s3: ProcessSample)
    requires PlainLine(header) && PlainLine(r1) && PlainLine(r2) && PlainLine(r3)
    requires ParseLine(r1) == Sample(s1) && ParseLine(r2) == Sample(s2) && ParseLine(r3) == Sample(s3)
    ensures PsListing(Unlines([header, r1, r2, r3])) == Ok([s1, s2, s3])
  {
    var lines := [header, r1, r2, r3];
    LinesOfUnlines(lines);
    assert lines[1..] == [r1, r2, r3];
    var outs := Outcomes([r1, r2, r3]);
    assert outs[0] == Sample(s1) && outs[1] == Sample(s2) && outs[2] == Sample(s3);
    ThreeOutcomes(outs, s1, s2, s3);
    CollectThree(outs, s1, s2, s3);
  }

  lemma ThreeOutcomes(outs: seq<LineOutcome>, s1: ProcessSample, s2: ProcessSample, s3: ProcessSample)
    requires |outs| == 3 && outs[0] == Sample(s1) && outs[1] == Sample(s2) && outs[2] == Sample(s3)
    ensures outs == [Sample(s1), Sample(s2), Sample(s3)]
  {
  }

  lemma CollectThree(outs: seq<LineOutcome>, s1: ProcessSample, s2: ProcessSample, s3: ProcessSample)
    requires outs == [Sample(s1), Sample(s2), Sample(s3)]
    ensures Collect(outs) == Ok([s1, s2, s3])
  {
    assert [Sample(s1)][..0] == [];
    assert [] + [s1] == [s1];
    assert Collect([Sample(s1)]) == Ok([s1]);
    assert [Sample(s1), Sample(s2)][..1] == [Sample(s1)];
    assert [s1] + [s2] == [s1, s2];
    assert Collect([Sample(s1), Sample(s2)]) == Ok([s1, s2]);
    assert outs[..2] == [Sample(s1), Sample(s2)];
    assert [s1, s2] + [s3] == [s1, s2, s3];
  }

  /** The three-process listing of the module's own test, its rows laid out
      column by column exactly as `ps` aligns them: pids 1, 123 and 456 with
      their ppids, rss values and commands, in order, the last command's two
      words kept together. */
  lemma PsListingExample()
    ensures PsListing(Unlines([
        "  PID  PPID  RSS COMMAND",
        "    " + "1" + "     " + "0" + "   " + "1234" + " " + "/sbin/launchd",
        "  " + "123" + "     " + "1" + "   " + "5678" + " " + "/usr/bin/safari",
        "  " + "456" + "   " + "123" + "  " + "91011" + " " + "/Applications/Safari.app/Contents/MacOS/Safari --flag"]))
      == Ok([ProcessSample(1, 0, 1234, "/sbin/launchd"),
             ProcessSample(123, 1, 5678, "/usr/bin/safari"),
             ProcessSample(456, 123, 91011, "/Applications/Safari.app/Contents/MacOS/Safari --flag")])
  {
    ExampleWords();
    ExampleRow1();
    ExampleRow2();
    ExampleRow3();
    ListingOfThree("  PID  PPID  RSS COMMAND", "    " + "1" + "     " + "0" + "   " + "1234" + " " + "/sbin/launchd", "  " + "123" + "     " + "1" + "   " + "5678" + " " + "/usr/bin/safari", "  " + "456" + "   " + "123" + "  " + "91011" + " " + "/Applications/Safari.app/Contents/MacOS/Safari --flag",
      ProcessSample(1, 0, 1234, "/sbin/launchd"),
      ProcessSample(123, 1, 5678, "/usr/bin/safari"),
      ProcessSample(456, 123, 91011, "/Applications/Safari.app/Contents/MacOS/Safari --flag"));
  }

  lemma ExampleRow1()
    ensures PlainLine("    " + "1" + "     " + "0" + "   " + "1234" + " " + "/sbin/launchd")
    ensures ParseLine("    " + "1" + "     " + "0" + "   " + "1234" + " " + "/sbin/launchd") == Sample(ProcessSample(1, 0, 1234, "/sbin/launchd"))
  {
    ExampleWords();
    assert IntToString(1) == "1" && IntToString(0) == "0" && NatToString(1234) == "1234";
    ParseRow("    ", 1, "     ", 0, "   ", 1234, " ", ["/sbin/launchd"]);
    RowIsPlain("    ", 1, "     ", 0, "   ", 1234, " ", ["/sbin/launchd"]);
  }

  lemma ExampleRow2()
    ensures PlainLine("  " + "123" + "     " + "1" + "   " + "5678" + " " + "/usr/bin/safari")
    ensures ParseLine("  " + "123" + "     " + "1" + "   " + "5678" + " " + "/usr/bin/safari") == Sample(ProcessSample(123, 1, 5678, "/usr/bin/safari"))
  {
    ExampleWords();
    assert IntToString(123) == "123" && IntToString(1) == "1" && NatToString(5678) == "5678";
    ParseRow("  ", 123, "     ", 1, "   ", 5678, " ", ["/usr/bin/safari"]);
    RowIsPlain("  ", 123, "     ", 1, "   ", 5678, " ", ["/usr/bin/safari"]);
  }

  lemma ExampleRow3()
    ensures PlainLine("  " + "456" + "   " + "123" + "  " + "91011" + " " + "/Applications/Safari.app/Contents/MacOS/Safari --flag")
    ensures ParseLine("  " + "456" + "   " + "123" + "  " + "91011" + " " + "/Applications/Safari.app/Contents/MacOS/Safari --flag")
         == Sample(ProcessSample(456, 123, 91011, "/Applications/Safari.app/Contents/MacOS/Safari --flag"))
  {
    var app := "/Applications/Safari.app/Contents/MacOS/Safari";
    ExampleWords();
    SafariPathIsWord();
    Row3Numbers();
    SafariCommand();
    ParseRow("  ", 456, "   ", 123, "  ", 91011, " ", [app, "--flag"]);
    RowIsPlain("  ", 456, "   ", 123, "  ", 91011, " ", [app, "--flag"]);
  }

  lemma Row3Numbers()
    ensures IntToString(456) == "456" && IntToString(123) == "123" && NatToString(91011) == "91011"
  {
  }

  lemma SafariCommand()
    ensures Join(["/Applications/Safari.app/Contents/MacOS/Safari", "--flag"], " ") == "/Applications/Safari.app/Contents/MacOS/Safari --flag"
  {
  }

  lemma ExampleWords()
    ensures IsWord("/sbin/launchd") && IsWord("/usr/bin/safari") && IsWord("--flag")
    ensures AllWhitespace("  ") && AllWhitespace("    ")
    ensures Gap(" ") && Gap("  ") && Gap("   ") && Gap("     ")
    ensures PlainLine("  PID  PPID  RSS COMMAND")
  {
  }

  lemma SafariPathIsWord()
    ensures IsWord("/Applications/Safari.app/Contents/MacOS/Safari")
  {
    var s := "/Applications/Safari.app/Contents/MacOS/Safari";
    forall i | 0 <= i < |s| ensures !IsWhitespace(s[i]) {
      assert s[i] in "/ApplicationsSfr.ContentsMOS";
    }
  }

  /** A row whose padding and gaps hold no line break is a line `lines`
      gives back unchanged. */
  lemma RowIsPlain(pad: string, pid: int, g1: string, ppid: int, g2: string, rssKib: nat, g3: string,
                   words: seq<string>)
    requires '\n' !in pad && '\n' !in g1 && '\n' !in g2 && '\n' !in g3
    requires words != [] && AllWords(words)
    ensures PlainLine(Row(pad, pid, g1, ppid, g2, rssKib, g3, words))
  {
    IntToStringIsWord(pid);
    IntToStringIsWord(ppid);
    NatToStringIsWord(rssKib);
    WordHasNoNewline(IntToString(pid));
    WordHasNoNewline(IntToString(ppid));
    WordHasNoNewline(NatToString(rssKib));
    var cmd := Join(words, " ");
    JoinSingleSpaced(words);
    SingleSpacedHasNoNewline(cmd);
    var row := Row(pad, pid, g1, ppid, g2, rssKib, g3, words);
    assert row[|row| - 1] == cmd[|cmd| - 1];
  }

  lemma WordHasNoNewline(w: string)
    requires IsWord(w)
    ensures '\n' !in w
  {
    assert IsWhitespace('\n');
  }

  lemma SingleSpacedHasNoNewline(s: string)
    requires SingleSpaced(s)
    ensures '\n' !in s
  {
    assert IsWhitespace('\n');
  }
}
