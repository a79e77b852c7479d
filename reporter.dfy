/** The human-readable summary: durations as `HH:MM:SS`, memory in the
    largest unit that holds at least one whole unit, and the per-process
    table. Printing is modelled as the sequence of lines printed; numbers
    with one decimal (`{:.1}`) come from the given `fixed1` function, which
    receives the exact quotient. */
module Reporter {
  import opened Wrappers
  import opened Text
  import opened Types
  import opened Arith

  // ---------------------------------------------------------------------------
  // Durations

  /** Rust's saturating `f64 as u64`: the fraction is dropped, negatives
      become 0 and values past the range become `u64::MAX`. */
  function TruncU64(x: real): (n: nat)
    ensures n <= U64_MAX
    ensures 0.0 <= x < (U64_MAX + 1) as real ==> n as real <= x < n as real + 1.0
    ensures x < 1.0 ==> n == 0
  {
    if x < 1.0 then 0
    else if x >= U64_MAX as real then U64_MAX
    else x.Floor
  }

  /** A whole number of seconds split into hours, minutes and seconds. */
  function Hms(total: nat): (r: (nat, nat, nat))
    ensures r.1 < 60 && r.2 < 60
    ensures r.0 * 3600 + r.1 * 60 + r.2 == total
  {
    (total / 3600, (total % 3600) / 60, total % 60)
  }

  /** The split is the only one with minutes and seconds below 60. */
  lemma HmsUnique(total: nat, h: nat, m: nat, s: nat)
    requires m < 60 && s < 60 && h * 3600 + m * 60 + s == total
    ensures Hms(total) == (h, m, s)
  {
    assert m * 60 + s < 3600;
    assert h * 3600 <= total < h * 3600 + 3600;
    DivUnique(total, 3600, h, m * 60 + s);
    DivUnique(m * 60 + s, 60, m, s);
  }

  /** `format_duration`: `{:02}:{:02}:{:02}` of the truncated seconds. */
  function FormatDuration(seconds: real): string {
    var hms := Hms(TruncU64(seconds));
    Pad2(hms.0) + ":" + Pad2(hms.1) + ":" + Pad2(hms.2)
  }

  /** Reading `H…H:MM:SS` back: the hours are everything before the last
      six characters. */
  function ReadDuration(t: string): (r: Option<nat>)
    ensures r.Some? ==> |t| >= 8 && t[|t| - 6] == ':' && t[|t| - 3] == ':'
  {
    if |t| >= 8 && t[|t| - 6] == ':' && t[|t| - 3] == ':'
       && AllDigits(t[..|t| - 6]) && AllDigits(t[|t| - 5..|t| - 3]) && AllDigits(t[|t| - 2..])
    then Some(DigitsValue(t[..|t| - 6]) * 3600 + DigitsValue(t[|t| - 5..|t| - 3]) * 60 + DigitsValue(t[|t| - 2..]))
    else None
  }

  /** The printed duration reads back as the whole seconds it was given, and
      it is exactly eight characters wide below 100 hours. */
  lemma FormatDurationReadsBack(seconds: real)
    ensures ReadDuration(FormatDuration(seconds)) == Some(TruncU64(seconds))
    ensures |FormatDuration(seconds)| == 8 <==> TruncU64(seconds) < 360000
  {
    var hms := Hms(TruncU64(seconds));
    ReadFields(Pad2(hms.0), Pad2(hms.1), Pad2(hms.2));
    if TruncU64(seconds) >= 360000 {
      Pad2Wide(hms.0);
    }
  }

  /** Three digit fields joined by colons read back field by field. */
  lemma ReadFields(a: string, b: string, c: string)
    requires AllDigits(a) && AllDigits(b) && AllDigits(c)
    requires |a| >= 2 && |b| == 2 && |c| == 2
    ensures ReadDuration(a + ":" + b + ":" + c) == Some(DigitsValue(a) * 3600 + DigitsValue(b) * 60 + DigitsValue(c))
    ensures |a + ":" + b + ":" + c| == |a| + 6
  {
    var t := a + ":" + b + ":" + c;
    Regroup(a, b, c);
    FieldsAt(t, a, b, c);
    ReadAt(t, a, b, c);
  }

  lemma ReadAt(t: string, a: string, b: string, c: string)
    requires AllDigits(a) && AllDigits(b) && AllDigits(c) && |a| >= 2
    requires |t| == |a| + 6 && t[..|t| - 6] == a && t[|t| - 5..|t| - 3] == b && t[|t| - 2..] == c
    requires t[|t| - 6] == ':' && t[|t| - 3] == ':'
    ensures ReadDuration(t) == Some(DigitsValue(a) * 3600 + DigitsValue(b) * 60 + DigitsValue(c))
  {
  }

  lemma Regroup(a: string, b: string, c: string)
    ensures a + ":" + b + ":" + c == a + (":" + b) + (":" + c)
  {
  }

  /** Where the fields sit in the text. */
  lemma FieldsAt(t: string, a: string, b: string, c: string)
    requires t == a + (":" + b) + (":" + c)
    requires |b| == 2 && |c| == 2
    ensures |t| == |a| + 6 && t[..|t| - 6] == a && t[|t| - 5..|t| - 3] == b && t[|t| - 2..] == c
    ensures t[|t| - 6] == ':' && t[|t| - 3] == ':'
  {
    var n := |a|;
    assert t[..n] == a;
    assert t[n + 1..n + 3] == b;
    assert t[n + 4..] == c;
  }

  /** From 100 hours on, the hours take three digits or more. */
  lemma Pad2Wide(n: nat)
    requires n >= 100
    ensures |Pad2(n)| >= 3
  {
    var d := Pad2(n);
    if |d| <= 2 {
      DigitsBound(d);
    }
  }

  /** Two digits denote less than 100. */
  lemma DigitsBound(d: string)
    requires AllDigits(d) && |d| <= 2
    ensures DigitsValue(d) < 100
  {
    if |d| > 0 {
      var init := d[..|d| - 1];
      assert AllDigits(init);
      if |init| > 0 {
        assert init[..|init| - 1] == [];
      }
    }
  }

  /** The module's own test cases. */
  lemma FormatDurationExamples()
    ensures FormatDuration(0.0) == "00:00:00"
    ensures FormatDuration(59.5) == "00:00:59"
    ensures FormatDuration(60.0) == "00:01:00"
    ensures FormatDuration(3661.0) == "01:01:01"
    ensures FormatDuration(7384.0) == "02:03:04"
  {
    DurationOf(0.0, 0, 0, 0, 0);
    DurationOf(59.5, 59, 0, 0, 59);
    DurationOf(60.0, 60, 0, 1, 0);
    DurationOf(3661.0, 3661, 1, 1, 1);
    DurationOf(7384.0, 7384, 2, 3, 4);
  }

  /** A duration of fewer than 10 hours is printed digit by digit. */
  lemma DurationOf(seconds: real, total: nat, h: nat, m: nat, s: nat)
    requires total as real <= seconds < total as real + 1.0
    requires h < 10 && m < 60 && s < 60 && h * 3600 + m * 60 + s == total
    ensures FormatDuration(seconds) == [DigitChar(0), DigitChar(h), ':', DigitChar(m / 10), DigitChar(m % 10),
                                        ':', DigitChar(s / 10), DigitChar(s % 10)]
  {
    TruncOf(seconds, total);
    HmsUnique(total, h, m, s);
    assert FormatDuration(seconds) == Pad2(h) + ":" + Pad2(m) + ":" + Pad2(s);
    Pad2Digits(h);
    Pad2Digits(m);
    Pad2Digits(s);
  }

  /** A real in `[total, total + 1)` truncates to `total`. */
  lemma TruncOf(x: real, total: nat)
    requires total < 360000 && total as real <= x < total as real + 1.0
    ensures TruncU64(x) == total
  {
    if x >= 1.0 {
      assert x < U64_MAX as real;
      assert x.Floor == total;
    }
  }

  lemma Pad2Digits(n: nat)
    requires n < 100
    ensures Pad2(n) == [DigitChar(n / 10), DigitChar(n % 10)]
  {
    if n >= 10 {
      assert NatToString(n / 10) == [DigitChar(n / 10)];
    }
  }

  // ---------------------------------------------------------------------------
  // Memory

  datatype Unit = KiB | MiB | GiB

  /** KiB per unit. */
  function Size(u: Unit): nat {
    match u
    case KiB => 1
    case MiB => 1024
    case GiB => 1024 * 1024
  }

  function Name(u: Unit): string {
    match u
    case KiB => "KiB"
    case MiB => "MiB"
    case GiB => "GiB"
  }

  /** The unit `format_memory` picks. Converting to `f64` first does not
      change the comparisons: 1024 and 1048576 are exact and the conversion
      is monotone. */
  function UnitOf(kib: nat): Unit {
    if kib >= 1024 * 1024 then GiB
    else if kib >= 1024 then MiB
    else KiB
  }

  /** The unit is the largest one the amount fills at least once: KiB below
      1024, MiB from 1024 below 1048576, GiB from 1048576 on; the printed
      number is then at least 1, and below 1024 except in GiB. */
  lemma UnitChoice(kib: nat)
    ensures UnitOf(kib) == KiB <==> kib < 1024
    ensures UnitOf(kib) == MiB <==> 1024 <= kib < 1048576
    ensures UnitOf(kib) == GiB <==> kib >= 1048576
    ensures kib > 0 ==> Size(UnitOf(kib)) <= kib
    ensures forall u :: Size(u) > Size(UnitOf(kib)) ==> kib < Size(u)
    ensures UnitOf(kib) != GiB ==> (kib as real) / (Size(UnitOf(kib)) as real) < 1024.0
  {
  }

  /** `format_memory`: a whole number of KiB, otherwise the quotient with one
      decimal. */
  function FormatMemory(kib: nat, fixed1: real -> string): (r: string)
    ensures UnitOf(kib) == KiB ==> r == NatToString(kib) + " KiB"
  {
    var u := UnitOf(kib);
    if u == KiB then NatToString(kib) + " " + Name(u)
    else fixed1((kib as real) / (Size(u) as real)) + " " + Name(u)
  }

  /** The unit name ends the text, and it says KiB exactly for amounts
      below 1024. */
  lemma FormatMemoryUnit(kib: nat, fixed1: real -> string)
    ensures var r := FormatMemory(kib, fixed1);
      |r| >= 4 && r[|r| - 4..] == " " + Name(UnitOf(kib))
    ensures var r := FormatMemory(kib, fixed1);
      r[|r| - 4..] == " KiB" <==> kib < 1024
  {
    var u := UnitOf(kib);
    var r := FormatMemory(kib, fixed1);
    var head := if u == KiB then NatToString(kib) else fixed1((kib as real) / (Size(u) as real));
    assert r == head + (" " + Name(u));
    assert r[|r| - 4..] == " " + Name(u);
    if u != KiB {
      assert (" " + Name(u))[1] != 'K';
    }
  }

  /** The module's own test cases; the one-decimal rendering of the MiB and
      GiB amounts is `fixed1`'s. */
  lemma FormatMemoryExamples(fixed1: real -> string)
    ensures FormatMemory(512, fixed1) == "512 KiB"
    ensures FormatMemory(1024, fixed1) == fixed1(1.0) + " MiB"
    ensures FormatMemory(2048, fixed1) == fixed1(2.0) + " MiB"
    ensures FormatMemory(1024 * 1024, fixed1) == fixed1(1.0) + " GiB"
    ensures FormatMemory(1024 * 1024 * 2, fixed1) == fixed1(2.0) + " GiB"
    ensures FormatMemory(1536 * 1024, fixed1) == fixed1(1.5) + " GiB"
  {
    ShortDecimal();
    Quotient(1024, 1024, 1.0);
    Quotient(2048, 1024, 2.0);
    Quotient(1024 * 1024, 1024 * 1024, 1.0);
    Quotient(1024 * 1024 * 2, 1024 * 1024, 2.0);
    Quotient(1536 * 1024, 1024 * 1024, 1.5);
  }

  lemma ShortDecimal()
    ensures NatToString(512) == "512"
  {
    assert NatToString(51) == "51";
  }

  lemma Quotient(a: nat, b: nat, q: real)
    requires b > 0 && (a as real) == q * (b as real)
    ensures (a as real) / (b as real) == q
  {
  }

  // ---------------------------------------------------------------------------
  // Command truncation, byte-wise as written

  /** The length of a character's UTF-8 encoding. */
  function Utf8Len(c: char): (n: nat)
    ensures 1 <= n <= 4
    ensures n == 1 <==> (c as int) < 0x80
  {
    if (c as int) < 0x80 then 1
    else if (c as int) < 0x800 then 2
    else if (c as int) < 0x10000 then 3
    else 4
  }

  /** `str::len`: the length in bytes. */
  function ByteLen(s: string): nat {
    if s == [] then 0 else Utf8Len(s[0]) + ByteLen(s[1..])
  }

  /** `&s[..n]`: the prefix made of exactly `n` bytes, or `None` (a panic)
      when byte `n` falls inside a character. */
  function TakeBytes(s: string, n: nat): (r: Option<string>)
    ensures r.Some? ==> |r.value| <= |s| && r.value == s[..|r.value|] && ByteLen(r.value) == n
  {
    if n == 0 then Some([])
    else if s == [] || Utf8Len(s[0]) > n then None
    else match TakeBytes(s[1..], n - Utf8Len(s[0]))
      case None => None
      case Some(t) => Some([s[0]] + t)
  }

  /** The truncation as `print_summary` writes it: a command of more than 60
      bytes is cut to its first 57 bytes plus `...`; `None` stands for the
      panic when byte 57 is inside a character. */
  function TruncateCommandAsWritten(cmd: string): (r: Option<string>)
    ensures ByteLen(cmd) <= 60 ==> r == Some(cmd)
  {
    if ByteLen(cmd) > 60 then
      match TakeBytes(cmd, 57)
      case None => None
      case Some(head) => Some(head + "...")
    else Some(cmd)
  }

  /** 56 ASCII letters, an `é` (two bytes), ten more letters: 68 bytes, and
      byte 57 is the second byte of the `é`. */
  function StraddlingCommand(): string {
    seq(56, _ => 'a') + ['é'] + seq(10, _ => 'a')
  }

  /** Without a character boundary at byte 57, the byte slice panics. */
  lemma TruncateAsWrittenPanics()
    ensures ByteLen(StraddlingCommand()) == 68
    ensures TruncateCommandAsWritten(StraddlingCommand()) == None
  {
    var a := seq(56, _ => 'a');
    var t := seq(10, _ => 'a');
    AsciiByteLen(a);
    AsciiByteLen(t);
    ByteLenAppend(a, ['é']);
    ByteLenAppend(a + ['é'], t);
    TakeAsciiThen(a, ['é'] + t, 57);
    assert StraddlingCommand() == a + (['é'] + t);
  }

  lemma {:induction false} ByteLenAppend(a: string, b: string)
    ensures ByteLen(a + b) == ByteLen(a) + ByteLen(b)
  {
    if a != [] {
      assert (a + b)[1..] == a[1..] + b;
      ByteLenAppend(a[1..], b);
    } else {
      assert a + b == b;
    }
  }

  predicate Ascii(s: string) {
    forall i :: 0 <= i < |s| ==> (s[i] as int) < 0x80
  }

  lemma {:induction false} AsciiByteLen(s: string)
    requires Ascii(s)
    ensures ByteLen(s) == |s|
  {
    if s != [] {
      AsciiByteLen(s[1..]);
    }
  }

  /** Taking bytes through an ASCII prefix is taking characters; past it the
      first character decides. */
  lemma {:induction false} TakeAsciiThen(a: string, b: string, n: nat)
    requires Ascii(a) && |a| < n && b != [] && n < |a| + Utf8Len(b[0])
    ensures TakeBytes(a + b, n) == None
  {
    if a == [] {
      assert a + b == b;
    } else {
      assert (a + b)[1..] == a[1..] + b;
      assert (a + b)[0] == a[0];
      TakeAsciiThen(a[1..], b, n - 1);
    }
  }

  // ---------------------------------------------------------------------------
  // Command truncation, at a character boundary

  /** The longest prefix of `s` that fits in `n` bytes: `s` cut at the last
      character boundary at or before byte `n`. */
  function PrefixWithin(s: string, n: nat): string {
    if s == [] || Utf8Len(s[0]) > n then []
    else [s[0]] + PrefixWithin(s[1..], n - Utf8Len(s[0]))
  }

  /** The cut is a prefix within the budget, and the next character would
      not fit. */
  lemma {:induction false} PrefixWithinBounds(s: string, n: nat)
    ensures var r := PrefixWithin(s, n);
      |r| <= |s| && r == s[..|r|] && ByteLen(r) <= n
      && (|r| < |s| ==> ByteLen(r) + Utf8Len(s[|r|]) > n)
      && (ByteLen(s) > n ==> |r| < |s|)
  {
    if s != [] && Utf8Len(s[0]) <= n {
      var t := PrefixWithin(s[1..], n - Utf8Len(s[0]));
      PrefixWithinBounds(s[1..], n - Utf8Len(s[0]));
      assert ([s[0]] + t)[1..] == t;
      assert ([s[0]] + t)[0] == s[0];
    }
  }

  /** Where byte `n` is a character boundary, the cut is the byte slice. */
  lemma {:induction false} PrefixWithinTakes(s: string, n: nat)
    requires TakeBytes(s, n).Some?
    ensures PrefixWithin(s, n) == TakeBytes(s, n).value
  {
    if n > 0 {
      PrefixWithinTakes(s[1..], n - Utf8Len(s[0]));
    }
  }

  /** A command of more than 60 bytes shown as its longest prefix of at most
      57 bytes and `...`; shorter ones unchanged. */
  function TruncateCommand(cmd: string): (r: string)
    ensures ByteLen(r) <= 60
    ensures ByteLen(cmd) <= 60 <==> r == cmd
    ensures ByteLen(cmd) > 60 ==>
      |r| >= 3 && r[|r| - 3..] == "..." && |r| - 3 < |cmd| && r[..|r| - 3] == cmd[..|r| - 3]
      && ByteLen(cmd[..|r| - 3]) <= 57 < ByteLen(cmd[..|r| - 3]) + Utf8Len(cmd[|r| - 3])
  {
    if ByteLen(cmd) > 60 then
      var head := PrefixWithin(cmd, 57);
      PrefixWithinBounds(cmd, 57);
      ByteLenAppend(head, "...");
      AsciiByteLen("...");
      assert (head + "...")[..|head|] == head;
      head + "..."
    else cmd
  }

  /** Wherever the byte slice does not panic, the corrected truncation shows
      exactly what the source shows. */
  lemma TruncateAgrees(cmd: string)
    requires TruncateCommandAsWritten(cmd).Some?
    ensures TruncateCommand(cmd) == TruncateCommandAsWritten(cmd).value
  {
    if ByteLen(cmd) > 60 {
      PrefixWithinTakes(cmd, 57);
    }
  }

  /** The command that makes the source panic is cut before the `é`. */
  lemma TruncateStraddling()
    ensures TruncateCommand(StraddlingCommand()) == seq(56, _ => 'a') + "..."
  {
    var a := seq(56, _ => 'a');
    var b := ['é'] + seq(10, _ => 'a');
    TruncateAsWrittenPanics();
    assert StraddlingCommand() == a + b;
    AsciiByteLen(a);
    PrefixWithinFits(a, b, 57);
    assert PrefixWithin(b, 1) == [];
    assert a + [] == a;
  }

  /** A prefix that fits in the budget is kept whole. */
  lemma {:induction false} PrefixWithinFits(a: string, b: string, n: nat)
    requires ByteLen(a) <= n
    ensures PrefixWithin(a + b, n) == a + PrefixWithin(b, n - ByteLen(a))
  {
    if a == [] {
      assert a + b == b;
    } else {
      var c, rest := a[0], a[1..];
      assert a == [c] + rest;
      assert a + b == [c] + (rest + b);
      assert ByteLen(a) == Utf8Len(c) + ByteLen(rest);
      PrefixWithinCons(c, rest + b, n);
      PrefixWithinFits(rest, b, n - Utf8Len(c));
    }
  }

  lemma PrefixWithinCons(c: char, rest: string, n: nat)
    requires Utf8Len(c) <= n
    ensures PrefixWithin([c] + rest, n) == [c] + PrefixWithin(rest, n - Utf8Len(c))
  {
    assert ([c] + rest)[1..] == rest;
  }

  /** On ASCII commands, where bytes and characters agree, the byte-wise
      version never panics. */
  lemma TruncateAsciiAgrees(cmd: string)
    requires Ascii(cmd)
    ensures TruncateCommandAsWritten(cmd) == Some(TruncateCommand(cmd))
  {
    AsciiByteLen(cmd);
    if |cmd| > 60 {
      TakeAscii(cmd, 57);
    }
    TruncateAgrees(cmd);
  }

  lemma {:induction false} TakeAscii(s: string, n: nat)
    requires Ascii(s) && n <= |s|
    ensures TakeBytes(s, n) == Some(s[..n])
  {
    if n > 0 {
      TakeAscii(s[1..], n - 1);
      assert [s[0]] + s[1..][..n - 1] == s[..n];
    }
  }

  // ---------------------------------------------------------------------------
  // The summary

  const JobLabel := "Job: "
  const DurationLabel := "Duration:        "
  const SamplesLabel := "Samples:         "
  const TotalLabel := "Max total RSS:   "
  const TooQuickNote := " (process exited too quickly to measure)"
  const SampledNote := "Note: The command completed before memory could be sampled."
  const IntervalHint := "For very short-running commands, try using a shorter sampling interval (-i)."
  const PerProcessLabel := "Max per process: "
  const TableTitle := "Per-process peak RSS:"

  /** `{:>w}`: right-aligned in `w` columns, never cut. */
  function PadLeft(s: string, w: nat): (r: string)
    ensures |r| == if |s| >= w then |s| else w
    ensures r[|r| - |s|..] == s
    ensures forall i :: 0 <= i < |r| - |s| ==> r[i] == ' '
  {
    if |s| >= w then s else seq(w - |s|, _ => ' ') + s
  }

  /** The branch that reports nothing per process: no peak at all, or no
      process with a non-zero one. */
  predicate TooQuick(p: JobProfile) {
    p.maxTotalRssKib == 0 || Resident(p.processes) == []
  }

  lemma TooQuickIff(p: JobProfile)
    ensures TooQuick(p) <==> p.maxTotalRssKib == 0 || forall i :: 0 <= i < |p.processes| ==> p.processes[i].maxRssKib == 0
  {
    ResidentSelects(p.processes);
    if !TooQuick(p) {
      var s := Resident(p.processes)[0];
      assert s in Resident(p.processes);
    } else if p.maxTotalRssKib != 0 {
      forall i | 0 <= i < |p.processes|
        ensures p.processes[i].maxRssKib == 0
      {
        assert p.processes[i] in p.processes;
      }
    }
  }

  function SummaryHead(p: JobProfile, durationSeconds: real): seq<string> {
    ["", JobLabel + Join(p.command, " "), DurationLabel + FormatDuration(durationSeconds),
     SamplesLabel + NatToString(p.samples), ""]
  }

  function QuickLines(p: JobProfile, fixed1: real -> string): seq<string> {
    [TotalLabel + FormatMemory(p.maxTotalRssKib, fixed1) + TooQuickNote, "", SampledNote, IntervalHint]
  }

  function PeakRow(s: ProcessStats, fixed1: real -> string): string {
    "  pid " + PadLeft(IntToString(s.pid), 5) + "  " + PadLeft(FormatMemory(s.maxRssKib, fixed1), 10)
    + "  " + TruncateCommand(s.command)
  }

  /** One row per process, in order. */
  function PeakRows(ps: seq<ProcessStats>, fixed1: real -> string): (rows: seq<string>)
    ensures |rows| == |ps|
  {
    if ps == [] then [] else PeakRows(ps[..|ps| - 1], fixed1) + [PeakRow(ps[|ps| - 1], fixed1)]
  }

  function PeakLines(p: JobProfile, fixed1: real -> string): seq<string>
    requires !TooQuick(p)
  {
    var first := Resident(p.processes)[0];
    [TotalLabel + FormatMemory(p.maxTotalRssKib, fixed1),
     PerProcessLabel + FormatMemory(first.maxRssKib, fixed1) + " (pid " + IntToString(first.pid) + ")",
     "", TableTitle]
    + PeakRows(Resident(p.processes), fixed1)
  }

  /** `print_summary`: the lines it prints. */
  method PrintSummary(p: JobProfile, durationSeconds: real, fixed1: real -> string) returns (out: seq<string>)
    ensures out == SummaryHead(p, durationSeconds)
                   + (if TooQuick(p) then QuickLines(p, fixed1) else PeakLines(p, fixed1)) + [""]
  {
    var head := ["", JobLabel + Join(p.command, " "), DurationLabel + FormatDuration(durationSeconds),
                 SamplesLabel + NatToString(p.samples), ""];
    var body: seq<string>;
    var valid := Resident(p.processes);
    if p.maxTotalRssKib == 0 || |valid| == 0 {
      body := [TotalLabel + FormatMemory(p.maxTotalRssKib, fixed1) + TooQuickNote, "", SampledNote, IntervalHint];
    } else {
      var first := valid[0];
      body := [TotalLabel + FormatMemory(p.maxTotalRssKib, fixed1),
               PerProcessLabel + FormatMemory(first.maxRssKib, fixed1) + " (pid " + IntToString(first.pid) + ")",
               "", TableTitle];
      var table: seq<string> := [];
      for k := 0 to |valid|
        invariant table == PeakRows(valid[..k], fixed1)
      {
        var cmd := TruncateCommand(valid[k].command);
        var row := "  pid " + PadLeft(IntToString(valid[k].pid), 5) + "  "
                   + PadLeft(FormatMemory(valid[k].maxRssKib, fixed1), 10) + "  " + cmd;
        PeakRowsStep(valid, k, fixed1);
        table := table + [row];
      }
      assert valid[..|valid|] == valid;
      body := body + table;
    }
    out := head + body + [""];
  }

  /** Row `i` describes process `i`. */
  lemma {:induction false} PeakRowsAt(ps: seq<ProcessStats>, fixed1: real -> string, i: nat)
    requires i < |ps|
    ensures PeakRows(ps, fixed1)[i] == PeakRow(ps[i], fixed1)
  {
    if i < |ps| - 1 {
      PeakRowsAt(ps[..|ps| - 1], fixed1, i);
    }
  }

  lemma PeakRowsStep(ps: seq<ProcessStats>, k: nat, fixed1: real -> string)
    requires k < |ps|
    ensures PeakRows(ps[..k + 1], fixed1) == PeakRows(ps[..k], fixed1) + [PeakRow(ps[k], fixed1)]
  {
    assert ps[..k + 1][..k] == ps[..k];
  }

  /** When the processes come sorted by peak, as `into_profile` leaves them,
      the "max per process" line names a process whose peak no other
      process exceeds. */
  lemma FirstShownIsLargest(p: JobProfile)
    requires SortedByPeak(p.processes) && !TooQuick(p)
    ensures forall i :: 0 <= i < |p.processes| ==> p.processes[i].maxRssKib <= Resident(p.processes)[0].maxRssKib
  {
    var ps := p.processes;
    ResidentSelects(ps);
    var s := Resident(ps)[0];
    assert s in Resident(ps);
    var j :| 0 <= j < |ps| && ps[j] == s;
    assert ps[0].maxRssKib >= s.maxRssKib > 0;
    ResidentHead(ps);
  }

  /** A list whose first process has a non-zero peak shows that process first. */
  lemma ResidentHead(ps: seq<ProcessStats>)
    requires ps != [] && ps[0].maxRssKib > 0
    ensures Resident(ps) != [] && Resident(ps)[0] == ps[0]
  {
    var a, b := [ps[0]], ps[1..];
    assert Resident(a) == [ps[0]] by {
      assert a[..|a| - 1] == [];
    }
    ResidentAppend(a, b);
    assert a + b == ps;
    var r := Resident(ps);
    assert r == [ps[0]] + Resident(b);
  }

  /** Every shown row ends with the command, cut to at most 60 bytes. */
  lemma PeakRowEnds(s: ProcessStats, fixed1: real -> string)
    ensures var r := PeakRow(s, fixed1); var c := TruncateCommand(s.command);
      |r| >= |c| && r[|r| - |c|..] == c && ByteLen(c) <= 60
  {
  }
}
