/** The Linux snapshot source of `src/inspector/linux.rs`: the parsers for
    `/proc/[pid]/stat`, `/proc/[pid]/status` and `/proc/[pid]/cmdline`, and
    the walk over `/proc` that turns each pid directory into a sample.
    File contents are inputs; reading them is not modelled. */
module LinuxInspector {
  import opened Wrappers
  import opened Text
  import opened Types

  // ---------------------------------------------------------------------------
  // /proc/[pid]/stat

  /** The whitespace-separated fields after the comm, whose closing `)` is at `end`. */
  function FieldsAfter(content: string, end: nat): seq<string>
    requires end < |content|
  {
    SplitWhitespace(Trim(content[end + 1..]))
  }

  /** What `read_proc_stat` does as written: a result, an error, or a panic. */
  datatype StatOutcome = Parsed(ppid: int, comm: string) | Failed(msg: string) | Panicked

  /** `read_proc_stat` as written. The comm is sliced between the first `(`
      and the last `)`; when the last `)` comes before the first `(` that
      slice panics, after the ppid has already been parsed. */
  function ReadProcStatAsWritten(content: string): StatOutcome {
    var start := Find(content, '(');
    var end := RFind(content, ')');
    if start.None? then Failed("Invalid stat format: missing '('")
    else if end.None? then Failed("Invalid stat format: missing ')'")
    else
      var fields := FieldsAfter(content, end.value);
      if |fields| < 2 then Failed("Invalid stat format: not enough fields")
      else if ParseI32(fields[1]).None? then Failed("Failed to parse ppid")
      else if start.value + 1 > end.value then Panicked
      else Parsed(ParseI32(fields[1]).value, content[start.value + 1..end.value])
  }

  /** `read_proc_stat` with the inverted-parentheses case reported as an
      error instead of a panic; the rest of the model uses this one. The
      comm is the text strictly between the first `(` and the last `)`, and
      the ppid is the second whitespace token after that `)`. */
  function ReadProcStat(content: string): (r: Result<(int, string)>)
    ensures r.Ok? ==> IsI32(r.value.0)
  {
    var start := Find(content, '(');
    var end := RFind(content, ')');
    if start.None? then Err("Invalid stat format: missing '('")
    else if end.None? then Err("Invalid stat format: missing ')'")
    else
      var fields := FieldsAfter(content, end.value);
      if |fields| < 2 then Err("Invalid stat format: not enough fields")
      else if ParseI32(fields[1]).None? then Err("Failed to parse ppid")
      else if start.value + 1 > end.value then Err("Invalid stat format: ')' before '('")
      else Ok((ParseI32(fields[1]).value, content[start.value + 1..end.value]))
  }

  /** Where `find('(')` and `rfind(')')` land on `head(comm)tail`. */
  lemma StatParens(content: string, head: string, comm: string, tail: string)
    requires content == head + "(" + comm + ")" + tail
    requires '(' !in head && ')' !in tail
    ensures Find(content, '(') == Some(|head|)
    ensures RFind(content, ')') == Some(|head| + 1 + |comm|)
    ensures content[|head| + 1..|head| + 1 + |comm|] == comm
    ensures content[|head| + 1 + |comm| + 1..] == tail
  {
    assert content == head + ['('] + (comm + ")" + tail);
    IndexOfAfterFree(head, '(', comm + ")" + tail);
    assert content == (head + "(" + comm) + [')'] + tail;
    RFindBeforeFree(head + "(" + comm, ')', tail);
  }

  /** Where they land on `)mid(` when `mid` holds neither parenthesis. */
  lemma StatParensInverted(mid: string)
    requires '(' !in mid && ')' !in mid
    ensures var content := ")" + mid + "(";
      && Find(content, '(') == Some(|mid| + 1)
      && RFind(content, ')') == Some(0)
      && content[1..] == mid + "("
  {
    var content := ")" + mid + "(";
    assert content == (")" + mid) + ['('] + [];
    IndexOfAfterFree(")" + mid, '(', []);
    assert content == [] + [')'] + (mid + "(");
    RFindBeforeFree([], ')', mid + "(");
  }

  /** The fields of ` state ppid rest`: the state, then the ppid. */
  lemma StatFields(state: string, q: string, rest: string)
    requires IsWord(state) && IsWord(q)
    requires rest == [] || (IsWhitespace(rest[0]) && !IsWhitespace(rest[|rest| - 1]))
    ensures var f := SplitWhitespace(Trim(" " + state + " " + q + rest));
      |f| >= 2 && f[0] == state && f[1] == q
  {
    var x := state + ([' '] + (q + rest));
    StatText(state, q, rest);
    TrimOneSpace(x);
    SplitWordThen(state, [' '] + (q + rest));
    SplitSkipsWhitespace(' ', q + rest);
    SplitWordThen(q, rest);
  }

  /** ` state q rest` is a space before a text that starts with the state
      and ends with the ppid or the rest. */
  lemma StatText(state: string, q: string, rest: string)
    requires state != [] && q != []
    ensures var x := state + ([' '] + (q + rest));
      && " " + state + " " + q + rest == [' '] + x
      && x[0] == state[0]
      && x[|x| - 1] == if rest == [] then q[|q| - 1] else rest[|rest| - 1]
  {
    var x := state + ([' '] + (q + rest));
    assert x[|x| - 1] == (q + rest)[|q + rest| - 1];
  }

  /** Trimming a space off a text that starts and ends with non-whitespace. */
  lemma TrimOneSpace(x: string)
    requires x != [] && !IsWhitespace(x[0]) && !IsWhitespace(x[|x| - 1])
    ensures Trim([' '] + x) == x
  {
    assert ([' '] + x)[1..] == x;
    assert TrimStart([' '] + x) == x;
  }

  /** A stat line whose only `)` comes before its only `(` but whose fields
      are otherwise fine makes the as-written reader panic, and the corrected
      one report an error. */
  lemma ReadProcStatPanicsWhenInverted(state: string, ppid: int)
    requires IsWord(state) && '(' !in state && ')' !in state
    requires IsI32(ppid)
    ensures ReadProcStatAsWritten(") " + state + " " + IntToString(ppid) + " (") == Panicked
    ensures ReadProcStat(") " + state + " " + IntToString(ppid) + " (") == Err("Invalid stat format: ')' before '('")
  {
    var q := IntToString(ppid);
    IntToStringIsWord(ppid);
    var mid := " " + state + " " + q + " ";
    NoParens(state, q);
    var content := ")" + mid + "(";
    assert content == ") " + state + " " + q + " (";
    StatParensInverted(mid);
    assert mid + "(" == " " + state + " " + q + " (";
    StatFields(state, q, " (");
    ParseI32OfIntToString(ppid);
  }

  /** Spaces around two parenthesis-free words add no parenthesis. */
  lemma NoParens(state: string, q: string)
    requires '(' !in state && ')' !in state && '(' !in q && ')' !in q
    ensures var mid := " " + state + " " + q + " "; '(' !in mid && ')' !in mid
  {
    var mid := " " + state + " " + q + " ";
    forall i | 0 <= i < |mid| ensures mid[i] != '(' && mid[i] != ')' {
      if 1 <= i < 1 + |state| {
        assert mid[i] == state[i - 1];
      } else if 2 + |state| <= i < 2 + |state| + |q| {
        assert mid[i] == q[i - 2 - |state|];
      }
    }
  }

  /** The stat line `) R 5 (` is one of them. */
  lemma ReadProcStatPanicsOnInvertedParens()
    ensures ReadProcStatAsWritten(") R 5 (") == Panicked
  {
    assert IntToString(5) == "5";
    assert ") R 5 (" == ") " + "R" + " " + IntToString(5) + " (";
    ReadProcStatPanicsWhenInverted("R", 5);
  }

  /** Apart from that panic, the corrected reader does what the source does. */
  lemma ReadProcStatAgrees(content: string)
    ensures ReadProcStatAsWritten(content) == Panicked <==>
            ReadProcStat(content) == Err("Invalid stat format: ')' before '('")
    ensures ReadProcStat(content).Ok? ==>
            ReadProcStatAsWritten(content) == Parsed(ReadProcStat(content).value.0, ReadProcStat(content).value.1)
    ensures ReadProcStatAsWritten(content).Failed? ==> ReadProcStat(content) == Err(ReadProcStatAsWritten(content).msg)
  {
  }

  /** How `read_proc_stat` succeeds: both parentheses found in order, at
      least two fields after the last one, and a ppid that parses. */
  lemma ReadProcStatOk(content: string, start: nat, end: nat, tail: string, ppid: int)
    requires Find(content, '(') == Some(start) && RFind(content, ')') == Some(end) && start < end
    requires content[end + 1..] == tail
    requires |SplitWhitespace(Trim(tail))| >= 2 && ParseI32(SplitWhitespace(Trim(tail))[1]) == Some(ppid)
    ensures ReadProcStat(content) == Ok((ppid, content[start + 1..end]))
  {
    assert FieldsAfter(content, end) == SplitWhitespace(Trim(tail));
  }

  /** A stat line `head(comm)tail` reads back to its comm and to the ppid in
      the second field of the tail. */
  lemma ReadProcStatOfParts(head: string, comm: string, tail: string, ppid: int)
    requires '(' !in head && ')' !in tail
    requires |SplitWhitespace(Trim(tail))| >= 2 && ParseI32(SplitWhitespace(Trim(tail))[1]) == Some(ppid)
    ensures ReadProcStat(head + "(" + comm + ")" + tail) == Ok((ppid, comm))
  {
    var content := head + "(" + comm + ")" + tail;
    StatParens(content, head, comm, tail);
    ReadProcStatOk(content, |head|, |head| + 1 + |comm|, tail, ppid);
  }

  /** A stat line as the kernel writes it, `pid (comm) state ppid ...`, is
      read back to its ppid and comm, even when the comm holds spaces or
      parentheses. */
  lemma ReadProcStatOfLine(pid: nat, comm: string, state: string, ppid: int, rest: string)
    requires IsWord(state) && ')' !in state && ')' !in rest
    requires IsI32(ppid)
    requires rest == [] || (IsWhitespace(rest[0]) && !IsWhitespace(rest[|rest| - 1]))
    ensures ReadProcStat(NatToString(pid) + " (" + comm + ") " + state + " " + IntToString(ppid) + rest) == Ok((ppid, comm))
  {
    var p := NatToString(pid);
    var q := IntToString(ppid);
    assert '(' !in p + " ";
    var tail := " " + state + " " + q + rest;
    IntToStringIsWord(ppid);
    StatFields(state, q, rest);
    ParseI32OfIntToString(ppid);
    assert ')' !in tail;
    ReadProcStatOfParts(p + " ", comm, tail, ppid);
    StatLineRegroup(p, comm, state, q, rest);
  }

  lemma StatLineRegroup(p: string, comm: string, state: string, q: string, rest: string)
    ensures p + " " + "(" + comm + ")" + (" " + state + " " + q + rest)
         == p + " (" + comm + ") " + state + " " + q + rest
  {
  }

  // ---------------------------------------------------------------------------
  // /proc/[pid]/status

  /** The value `read_proc_status_rss` reports for these lines: the second
      token of the first `VmRSS:` line that has at least two tokens, parsed
      as `u64`; 0 when there is no such line. */
  function RssOfLines(lines: seq<string>): Result<nat> {
    if lines == [] then Ok(0)
    else if StartsWith(lines[0], "VmRSS:") && |SplitWhitespace(lines[0])| >= 2 then
      var v := ParseU64(SplitWhitespace(lines[0])[1]);
      if v.Some? then Ok(v.value) else Err("Failed to parse VmRSS value")
    else RssOfLines(lines[1..])
  }

  /** `read_proc_status_rss`: scan the lines and return at the first usable
      `VmRSS:` line. */
  method ReadProcStatusRss(content: string) returns (r: Result<nat>)
    ensures r == RssOfLines(Lines(content))
  {
    var lines := Lines(content);
    var i := 0;
    while i < |lines|
      invariant 0 <= i <= |lines|
      invariant RssOfLines(lines[i..]) == RssOfLines(lines)
    {
      var line := lines[i];
      assert lines[i..][1..] == lines[i + 1..];
      if StartsWith(line, "VmRSS:") {
        var parts := SplitWhitespace(line);
        if |parts| >= 2 {
          var v := ParseU64(parts[1]);
          if v.None? {
            return Err("Failed to parse VmRSS value");
          }
          return Ok(v.value);
        }
      }
      i := i + 1;
    }
    assert lines[i..] == [];
    r := Ok(0);
  }

  /** A status file with no `VmRSS:` line (a kernel thread) reports 0. */
  lemma {:induction false} RssWithoutVmRss(lines: seq<string>)
    requires forall i :: 0 <= i < |lines| ==> !StartsWith(lines[i], "VmRSS:")
    ensures RssOfLines(lines) == Ok(0)
  {
    if lines != [] {
      RssWithoutVmRss(lines[1..]);
    }
  }

  /** Lines before the first `VmRSS:` line do not matter, and a `VmRSS:` line
      whose value is a number reports that number. */
  lemma {:induction false} RssOfStatus(before: seq<string>, n: nat, unit: seq<string>, after: seq<string>)
    requires forall i :: 0 <= i < |before| ==> !StartsWith(before[i], "VmRSS:")
    requires n <= U64_MAX
    requires forall i :: 0 <= i < |unit| ==> IsWord(unit[i])
    ensures RssOfLines(before + [Join(["VmRSS:", NatToString(n)] + unit, " ")] + after) == Ok(n)
  {
    var ws := ["VmRSS:", NatToString(n)] + unit;
    var line := Join(ws, " ");
    if before == [] {
      assert before + [line] + after == [line] + after;
      assert forall i :: 0 <= i < |NatToString(n)| ==> IsDigit(NatToString(n)[i]);
      assert IsWord(NatToString(n));
      assert forall i :: 0 <= i < |ws| ==> IsWord(ws[i]);
      SplitJoinedWords(ws);
      assert line == "VmRSS:" + " " + Join(ws[1..], " ");
      assert StartsWith(line, "VmRSS:");
      ParseU64OfNatToString(n);
    } else {
      assert (before + [line] + after)[1..] == before[1..] + [line] + after;
      assert !StartsWith(before[0], "VmRSS:");
      RssOfStatus(before[1..], n, unit, after);
    }
  }

  // ---------------------------------------------------------------------------
  // /proc/[pid]/cmdline

  type byte = b: int | 0 <= b < 256

  /** Index of the first NUL byte, or the length when there is none. */
  function FirstNul(b: seq<byte>): (i: nat)
    ensures i <= |b|
    ensures i < |b| ==> b[i] == 0
    ensures forall k :: 0 <= k < i ==> b[k] != 0
  {
    if b == [] || b[0] == 0 then 0 else 1 + FirstNul(b[1..])
  }

  /** `split(|&b| b == 0)`: the pieces between NUL bytes, so `n` NULs give
      `n + 1` pieces, some of them possibly empty. */
  function SplitNul(b: seq<byte>): (r: seq<seq<byte>>)
    ensures |r| >= 1
    decreases |b|
  {
    var i := FirstNul(b);
    if i == |b| then [b] else [b[..i]] + SplitNul(b[i + 1..])
  }

  function NonEmpty(pieces: seq<seq<byte>>): seq<seq<byte>> {
    if pieces == [] then []
    else (if pieces[0] == [] then [] else [pieces[0]]) + NonEmpty(pieces[1..])
  }

  function MapDecode(pieces: seq<seq<byte>>, decode: seq<byte> -> string): (r: seq<string>)
    ensures |r| == |pieces|
  {
    if pieces == [] then [] else [decode(pieces[0])] + MapDecode(pieces[1..], decode)
  }

  /** `read_cmdline` given the file's bytes: empty content gives the empty
      string, otherwise the non-empty NUL-separated arguments, each decoded
      (`String::from_utf8_lossy` is the `decode` parameter), joined by one space. */
  function ReadCmdline(content: seq<byte>, decode: seq<byte> -> string): string {
    if content == [] then []
    else Join(MapDecode(NonEmpty(SplitNul(content)), decode), " ")
  }

  /** The arguments as the kernel stores them: each followed by a NUL. */
  function NulTerminated(args: seq<seq<byte>>): seq<byte> {
    if args == [] then [] else args[0] + [0] + NulTerminated(args[1..])
  }

  predicate IsArgument(a: seq<byte>) {
    a != [] && forall k :: 0 <= k < |a| ==> a[k] != 0
  }

  lemma {:induction false} SplitNulTerminated(args: seq<seq<byte>>)
    requires forall i :: 0 <= i < |args| ==> IsArgument(args[i])
    ensures SplitNul(NulTerminated(args)) == args + [[]]
  {
    if args != [] {
      var a := args[0];
      var rest := NulTerminated(args[1..]);
      var b := a + [0] + rest;
      assert FirstNul(b) == |a| by {
        assert b[|a|] == 0;
        assert forall k :: 0 <= k < |a| ==> b[k] == a[k];
      }
      assert b[..|a|] == a;
      assert b[|a| + 1..] == rest;
      SplitNulTerminated(args[1..]);
      assert args == [a] + args[1..];
    }
  }

  lemma {:induction false} NonEmptyKeepsArguments(args: seq<seq<byte>>)
    requires forall i :: 0 <= i < |args| ==> IsArgument(args[i])
    ensures NonEmpty(args + [[]]) == args
  {
    if args != [] {
      assert (args + [[]])[1..] == args[1..] + [[]];
      NonEmptyKeepsArguments(args[1..]);
      assert args == [args[0]] + args[1..];
    }
  }

  /** Reading back a command line the kernel stored gives its decoded
      arguments joined by single spaces; no argument gives the empty string. */
  lemma ReadCmdlineOfArguments(args: seq<seq<byte>>, decode: seq<byte> -> string)
    requires forall i :: 0 <= i < |args| ==> IsArgument(args[i])
    ensures ReadCmdline(NulTerminated(args), decode) == Join(MapDecode(args, decode), " ")
  {
    if args != [] {
      SplitNulTerminated(args);
      NonEmptyKeepsArguments(args);
    }
  }

  /** Only non-empty pieces survive: runs of NULs collapse. */
  lemma {:induction false} NonEmptyHasNoEmptyPiece(pieces: seq<seq<byte>>)
    ensures forall i :: 0 <= i < |NonEmpty(pieces)| ==> NonEmpty(pieces)[i] != []
    ensures |NonEmpty(pieces)| <= |pieces|
  {
    if pieces != [] {
      NonEmptyHasNoEmptyPiece(pieces[1..]);
    }
  }

  // ---------------------------------------------------------------------------
  // The walk over /proc

  /** One entry of `/proc` and the files under it. `name` is `None` when the
      entry could not be read or its name is not UTF-8; a file is `None` when
      reading it failed. */
  datatype ProcEntry = ProcEntry(
    name: Option<string>,
    stat: Option<string>,
    status: Option<string>,
    cmdline: Option<seq<byte>>)

  /** The sample `snapshot_all` makes of one entry, or `None` when it skips
      the entry: the name must parse as an `i32` pid and both the stat and
      the status file must be read and parsed. The command is the cmdline
      when it is readable and non-empty, else the comm from stat. */
  function SampleOf(e: ProcEntry, decode: seq<byte> -> string): Option<ProcessSample> {
    if e.name.None? || ParseI32(e.name.value).None? then None
    else if e.stat.None? || ReadProcStat(e.stat.value).Err? then None
    else if e.status.None? || RssOfLines(Lines(e.status.value)).Err? then None
    else
      var (ppid, comm) := ReadProcStat(e.stat.value).value;
      var cmd := if e.cmdline.Some? && ReadCmdline(e.cmdline.value, decode) != [] then ReadCmdline(e.cmdline.value, decode) else comm;
      Some(ProcessSample(ParseI32(e.name.value).value, ppid, RssOfLines(Lines(e.status.value)).value, cmd))
  }

  /** The samples of the entries that are not skipped, in directory order. */
  function SamplesOf(es: seq<ProcEntry>, decode: seq<byte> -> string): seq<ProcessSample> {
    if es == [] then []
    else
      SamplesOf(es[..|es| - 1], decode)
      + (if SampleOf(es[|es| - 1], decode).Some? then [SampleOf(es[|es| - 1], decode).value] else [])
  }

  /** The body of `snapshot_all`'s loop for one entry: `None` is a `continue`. */
  method SnapshotEntry(e: ProcEntry, decode: seq<byte> -> string) returns (r: Option<ProcessSample>)
    ensures r == SampleOf(e, decode)
  {
    if e.name.None? {
      return None;
    }
    var pid := ParseI32(e.name.value);
    if pid.None? {
      return None;
    }
    if e.stat.None? || ReadProcStat(e.stat.value).Err? {
      return None;
    }
    var (ppid, comm) := ReadProcStat(e.stat.value).value;
    if e.status.None? {
      return None;
    }
    var rss := ReadProcStatusRss(e.status.value);
    if rss.Err? {
      return None;
    }
    var command := comm;
    if e.cmdline.Some? {
      var cmd := ReadCmdline(e.cmdline.value, decode);
      if cmd != [] {
        command := cmd;
      }
    }
    return Some(ProcessSample(pid.value, ppid, rss.value, command));
  }

  /** `snapshot_all`: only an unreadable `/proc` fails; every entry that
      cannot be turned into a sample is skipped. */
  method SnapshotAll(dir: Option<seq<ProcEntry>>, decode: seq<byte> -> string) returns (r: Result<seq<ProcessSample>>)
    ensures dir.None? ==> r == Err("Failed to read /proc directory")
    ensures dir.Some? ==> r == Ok(SamplesOf(dir.value, decode))
  {
    if dir.None? {
      return Err("Failed to read /proc directory");
    }
    var entries := dir.value;
    var processes: seq<ProcessSample> := [];
    var i := 0;
    while i < |entries|
      invariant 0 <= i <= |entries|
      invariant processes == SamplesOf(entries[..i], decode)
    {
      SamplesOfStep(entries, i, decode);
      var sample := SnapshotEntry(entries[i], decode);
      if sample.Some? {
        processes := processes + [sample.value];
      }
      i := i + 1;
    }
    assert entries[..i] == entries;
    return Ok(processes);
  }

  lemma SamplesOfStep(es: seq<ProcEntry>, i: int, decode: seq<byte> -> string)
    requires 0 <= i < |es|
    ensures SamplesOf(es[..i + 1], decode) == SamplesOf(es[..i], decode)
      + (if SampleOf(es[i], decode).Some? then [SampleOf(es[i], decode).value] else [])
  {
    assert es[..i + 1][..i] == es[..i];
  }

  lemma {:induction false} SamplesOfAppend(a: seq<ProcEntry>, b: seq<ProcEntry>, decode: seq<byte> -> string)
    ensures SamplesOf(a + b, decode) == SamplesOf(a, decode) + SamplesOf(b, decode)
    decreases |b|
  {
    if b == [] {
      assert a + b == a;
    } else {
      assert (a + b)[..|a + b| - 1] == a + b[..|b| - 1];
      assert (a + b)[|a + b| - 1] == b[|b| - 1];
      SamplesOfAppend(a, b[..|b| - 1], decode);
    }
  }

  /** An entry that cannot be sampled (a vanished process, a non-numeric
      name) is left out without disturbing the others. */
  lemma SkippedEntryIsOmitted(a: seq<ProcEntry>, e: ProcEntry, b: seq<ProcEntry>, decode: seq<byte> -> string)
    requires SampleOf(e, decode).None?
    ensures SamplesOf(a + [e] + b, decode) == SamplesOf(a + b, decode)
  {
    SamplesOfAppend(a + [e], b, decode);
    SamplesOfAppend(a, [e], decode);
    SamplesOfAppend(a, b, decode);
    assert SamplesOf([e], decode) == [] by {
      assert [e][..0] == [];
    }
  }

  /** Every sample comes from an entry with a numeric name and a readable,
      well-formed stat file; its ppid is the one stat gives. */
  lemma {:induction false} SamplesComeFromEntries(es: seq<ProcEntry>, decode: seq<byte> -> string, k: nat)
    requires k < |SamplesOf(es, decode)|
    ensures exists i :: 0 <= i < |es| && SampleOf(es[i], decode) == Some(SamplesOf(es, decode)[k])
  {
    var pre := es[..|es| - 1];
    if k < |SamplesOf(pre, decode)| {
      SamplesComeFromEntries(pre, decode, k);
      var i :| 0 <= i < |pre| && SampleOf(pre[i], decode) == Some(SamplesOf(pre, decode)[k]);
      assert es[i] == pre[i];
    } else {
      assert SampleOf(es[|es| - 1], decode) == Some(SamplesOf(es, decode)[k]);
    }
  }

  /** The command falls back to the comm exactly when the cmdline is
      unreadable or reads as empty. */
  lemma CommandFallback(e: ProcEntry, decode: seq<byte> -> string)
    requires SampleOf(e, decode).Some?
    ensures e.stat.Some? && ReadProcStat(e.stat.value).Ok?
    ensures SampleOf(e, decode).value.ppid == ReadProcStat(e.stat.value).value.0
    ensures e.cmdline.Some? && ReadCmdline(e.cmdline.value, decode) != [] ==>
              SampleOf(e, decode).value.command == ReadCmdline(e.cmdline.value, decode)
    ensures e.cmdline.None? || ReadCmdline(e.cmdline.value, decode) == [] ==>
              SampleOf(e, decode).value.command == ReadProcStat(e.stat.value).value.1
  {
  }
}
