/** The CSV exporters: per-process peaks and the memory timeline, each file
    modelled as the sequence of lines written to it. Creating and writing
    the file is outside the model, and so is the rendering of floating-point
    and date columns: the MiB columns, the elapsed seconds and the RFC 3339
    timestamps come from the given `Render` functions. */
module CsvWriter {
  import opened Wrappers
  import opened Text
  import opened Types

  /** How the columns the model does not compute are printed. */
  datatype Render = Render(mib: nat -> string, elapsed: TimelinePoint -> string, rfc3339: Timestamp -> string)

  // ---------------------------------------------------------------------------
  // Escaping

  /** `str::replace('"', "\"\"")`: every double quote doubled. */
  function EscapeCsv(s: string): (r: string)
    ensures '"' !in s ==> r == s
  {
    if s == [] then []
    else (if s[0] == '"' then "\"\"" else [s[0]]) + EscapeCsv(s[1..])
  }

  /** The number of double quotes in `s`. */
  function Quotes(s: string): nat {
    multiset(s)['"']
  }

  /** Reading a quoted field back: each `""` stands for one `"`. */
  function UnescapeCsv(r: string): string {
    if r == [] then []
    else if |r| >= 2 && r[0] == '"' && r[1] == '"' then "\"" + UnescapeCsv(r[2..])
    else [r[0]] + UnescapeCsv(r[1..])
  }

  /** Escaping adds exactly one character per quote. */
  lemma {:induction false} EscapeCsvLength(s: string)
    ensures |EscapeCsv(s)| == |s| + Quotes(s)
  {
    if s != [] {
      assert s == [s[0]] + s[1..];
      EscapeCsvLength(s[1..]);
    }
  }

  /** Collapsing each `""` back to `"` gives back the original text. */
  lemma {:induction false} UnescapeEscape(s: string)
    ensures UnescapeCsv(EscapeCsv(s)) == s
  {
    if s != [] {
      var rest := EscapeCsv(s[1..]);
      UnescapeEscape(s[1..]);
      if s[0] == '"' {
        assert ("\"\"" + rest)[2..] == rest;
      } else {
        assert ([s[0]] + rest)[1..] == rest;
      }
    }
  }

  /** Inside the escaped text quotes come in adjacent pairs, so a quoted field
      cannot be closed early. */
  lemma {:induction false} EscapedQuotesPaired(s: string, i: nat)
    requires i < |EscapeCsv(s)| && EscapeCsv(s)[i] == '"'
    ensures (i + 1 < |EscapeCsv(s)| && EscapeCsv(s)[i + 1] == '"') || (i > 0 && EscapeCsv(s)[i - 1] == '"')
  {
    var head := if s[0] == '"' then "\"\"" else [s[0]];
    var rest := EscapeCsv(s[1..]);
    assert EscapeCsv(s) == head + rest;
    if i >= |head| {
      EscapedQuotesPaired(s[1..], i - |head|);
    }
  }

  /** Escaping works piece by piece. */
  lemma {:induction false} EscapeCsvAppend(a: string, b: string)
    ensures EscapeCsv(a + b) == EscapeCsv(a) + EscapeCsv(b)
  {
    if a == [] {
      assert a + b == b;
    } else {
      assert (a + b)[1..] == a[1..] + b;
      EscapeCsvAppend(a[1..], b);
    }
  }

  /** A quoted word inside quote-free text: both quotes doubled. */
  lemma EscapeCsvQuotedWord(a: string, b: string)
    requires '"' !in a && '"' !in b
    ensures EscapeCsv(a + "\"" + b + "\"") == a + "\"\"" + b + "\"\""
  {
    EscapeCsvAppend(a + "\"" + b, "\"");
    EscapeCsvAppend(a + "\"", b);
    EscapeCsvAppend(a, "\"");
  }

  /** The module's own test cases. */
  lemma EscapeCsvExamples()
    ensures EscapeCsv("hello") == "hello"
    ensures EscapeCsv("test") == "test"
    ensures EscapeCsv("hello \"world\"") == "hello \"\"world\"\""
  {
    ExampleSplits();
    EscapeCsvQuotedWord("hello ", "world");
  }

  lemma ExampleSplits()
    ensures '"' !in "hello " && '"' !in "world"
    ensures "hello \"world\"" == "hello " + "\"" + "world" + "\""
    ensures "hello \"\"world\"\"" == "hello " + "\"\"" + "world" + "\"\""
  {
  }

  // ---------------------------------------------------------------------------
  // The per-process CSV

  const ProcessHeader := "pid,ppid,command,max_rss_kib,max_rss_mib,first_seen,last_seen"

  /** The patterns as written into a `# Filter:` comment: each one followed by
      a space. */
  function CommentPatterns(f: FilterConfig): string {
    (if f.excludePattern.Some? then "exclude='" + f.excludePattern.value + "' " else [])
    + (if f.includePattern.Some? then "include='" + f.includePattern.value + "' " else [])
  }

  /** The `# Filter:` line, present only when the profile carries a filter and
      both filtered counts. */
  function FilterComment(p: JobProfile): (r: seq<string>)
    ensures |r| <= 1
    ensures r != [] <==> p.filter.Some? && p.filteredProcessCount.Some? && p.filteredTotalRssKib.Some?
  {
    if p.filter.Some? && p.filteredProcessCount.Some? && p.filteredTotalRssKib.Some? then
      ["# Filter: " + CommentPatterns(p.filter.value)
       + "(" + NatToString(p.filteredProcessCount.value) + " processes filtered out, "
       + NatToString(p.filteredTotalRssKib.value) + " KiB total)"]
    else []
  }

  function ProcessRow(s: ProcessStats, render: Render): string {
    IntToString(s.pid) + "," + IntToString(s.ppid) + ",\"" + EscapeCsv(s.command) + "\","
    + NatToString(s.maxRssKib) + "," + render.mib(s.maxRssKib) + ","
    + render.rfc3339(s.firstSeen) + "," + render.rfc3339(s.lastSeen)
  }

  function ProcessRows(ps: seq<ProcessStats>, render: Render): (rows: seq<string>)
    ensures |rows| == |ps|
    ensures forall i :: 0 <= i < |ps| ==> rows[i] == ProcessRow(ps[i], render)
  {
    seq(|ps|, i requires 0 <= i < |ps| => ProcessRow(ps[i], render))
  }

  /** The start of the `# Filter:` line both exporters write, built pattern
      by pattern. */
  method FilterLine(filter: FilterConfig) returns (line: string)
    ensures line == "# Filter: " + CommentPatterns(filter)
  {
    line := "# Filter: ";
    if filter.excludePattern.Some? {
      line := line + "exclude='" + filter.excludePattern.value + "' ";
    }
    if filter.includePattern.Some? {
      line := line + "include='" + filter.includePattern.value + "' ";
    }
  }

  /** The lines of `export_process_csv`: the filter comment if any, the header,
      then one row per process with a non-zero peak. */
  method ExportProcessCsv(p: JobProfile, render: Render) returns (file: seq<string>)
    ensures file == FilterComment(p) + [ProcessHeader] + ProcessRows(Resident(p.processes), render)
  {
    file := [];
    if p.filter.Some? {
      var filter := p.filter.value;
      if p.filteredProcessCount.Some? && p.filteredTotalRssKib.Some? {
        var line := FilterLine(filter);
        file := file + [line + "(" + NatToString(p.filteredProcessCount.value) + " processes filtered out, "
                        + NatToString(p.filteredTotalRssKib.value) + " KiB total)"];
      }
    }
    file := file + [ProcessHeader];
    ghost var prefix := file;
    ghost var rows: seq<string> := [];
    for k := 0 to |p.processes|
      invariant rows == ProcessRows(Resident(p.processes[..k]), render)
      invariant file == prefix + rows
    {
      ResidentStep(p.processes, k, render);
      var s := p.processes[k];
      if s.maxRssKib > 0 {
        var row := ProcessRow(s, render);
        AppendRow(prefix, rows, row);
        file := file + [row];
        rows := rows + [row];
      }
    }
    assert p.processes[..|p.processes|] == p.processes;
  }

  lemma AppendRow(prefix: seq<string>, rows: seq<string>, row: string)
    ensures prefix + rows + [row] == prefix + (rows + [row])
  {
  }

  /** One more process adds its row exactly when its peak is non-zero. */
  lemma ResidentStep(ps: seq<ProcessStats>, k: nat, render: Render)
    requires k < |ps|
    ensures ProcessRows(Resident(ps[..k + 1]), render)
            == ProcessRows(Resident(ps[..k]), render) + (if ps[k].maxRssKib > 0 then [ProcessRow(ps[k], render)] else [])
  {
    assert ps[..k + 1][..k] == ps[..k];
    var a := Resident(ps[..k]);
    var b := if ps[k].maxRssKib > 0 then [ps[k]] else [];
    assert Resident(ps[..k + 1]) == a + b;
    assert ProcessRows(a + b, render) == ProcessRows(a, render) + ProcessRows(b, render);
  }

  /** The filter comment lists the same patterns as `to_csv_comment`, with a
      space before the counts. */
  lemma CommentPatternsAgree(f: FilterConfig)
    ensures CommentPatterns(f) == if f.ToCsvComment() == [] then [] else f.ToCsvComment() + " "
  {
  }

  // ---------------------------------------------------------------------------
  // The timeline CSV

  const TimelineHeader := "timestamp,elapsed_seconds,total_rss_kib,total_rss_mib,process_count"
  const UnfilteredNote := "# Note: total_rss_kib and process_count both show all processes (unfiltered)"
  const FilteringNote := "# Filtering only affects the per-process CSV export and final summary display"
  const NoTimeline := "Timeline data not available. This is a bug - timeline should be tracked when --timeline is used."

  /** The comment block of the timeline file, written whenever a filter is
      set: the patterns, then two notes that the totals are unfiltered. */
  function TimelineComment(p: JobProfile): (r: seq<string>)
    ensures |r| == if p.filter.Some? then 3 else 0
  {
    if p.filter.Some? then ["# Filter: " + CommentPatterns(p.filter.value), UnfilteredNote, FilteringNote]
    else []
  }

  function TimelineRow(t: TimelinePoint, render: Render): string {
    render.rfc3339(t.timestamp) + "," + render.elapsed(t) + "," + NatToString(t.totalRssKib) + ","
    + render.mib(t.totalRssKib) + "," + NatToString(t.processCount)
  }

  function TimelineRows(ts: seq<TimelinePoint>, render: Render): (rows: seq<string>)
    ensures |rows| == |ts|
    ensures forall i :: 0 <= i < |ts| ==> rows[i] == TimelineRow(ts[i], render)
  {
    seq(|ts|, i requires 0 <= i < |ts| => TimelineRow(ts[i], render))
  }

  /** The lines of `export_timeline_csv`, or its error when the profile has
      no timeline. */
  method ExportTimelineCsv(p: JobProfile, render: Render) returns (r: Result<seq<string>>)
    ensures p.timeline.None? <==> r.Err?
    ensures r.Err? ==> r.msg == NoTimeline
    ensures r.Ok? ==> r.value == TimelineComment(p) + [TimelineHeader] + TimelineRows(p.timeline.value, render)
  {
    if p.timeline.None? {
      return Err(NoTimeline);
    }
    var timeline := p.timeline.value;
    var file: seq<string> := [];
    if p.filter.Some? {
      var filter := p.filter.value;
      var line := FilterLine(filter);
      file := file + [line];
      file := file + [UnfilteredNote];
      file := file + [FilteringNote];
    }
    file := file + [TimelineHeader];
    ghost var prefix := file;
    for k := 0 to |timeline|
      invariant file == prefix + TimelineRows(timeline[..k], render)
    {
      assert TimelineRows(timeline[..k + 1], render) == TimelineRows(timeline[..k], render) + [TimelineRow(timeline[k], render)];
      AppendRow(prefix, TimelineRows(timeline[..k], render), TimelineRow(timeline[k], render));
      file := file + [TimelineRow(timeline[k], render)];
    }
    assert timeline[..|timeline|] == timeline;
    return Ok(file);
  }
}
