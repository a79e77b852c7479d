/** The pieces of Rust's `str` API that the parsers and formatters rely on:
    `char::is_whitespace`, `trim`, `split_whitespace`, `lines`, `join`,
    `parse::<u64>` / `parse::<i32>` and decimal `Display` of integers.
    Strings are sequences of Unicode scalar values. */
module Text {
  import opened Wrappers

  const U64_MAX: nat := 0xFFFF_FFFF_FFFF_FFFF
  const I32_MIN: int := -0x8000_0000
  const I32_MAX: int := 0x7FFF_FFFF

  predicate IsI32(x: int) { I32_MIN <= x <= I32_MAX }

  // ---------------------------------------------------------------------------
  // Whitespace, trimming and splitting

  /** Unicode White_Space, the set Rust's `char::is_whitespace` tests. */
  predicate IsWhitespace(c: char) {
    ('\t' <= c <= '\r') || c == ' ' || c == '\U{0085}' || c == '\U{00A0}' || c == '\U{1680}'
    || ('\U{2000}' <= c <= '\U{200A}') || c == '\U{2028}' || c == '\U{2029}'
    || c == '\U{202F}' || c == '\U{205F}' || c == '\U{3000}'
  }

  /** A non-empty run of non-whitespace characters: what `split_whitespace` yields. */
  predicate IsWord(w: string) {
    w != [] && forall i :: 0 <= i < |w| ==> !IsWhitespace(w[i])
  }

  function TrimStart(s: string): (r: string)
    ensures |r| <= |s|
    ensures r == [] || !IsWhitespace(r[0])
  {
    if s != [] && IsWhitespace(s[0]) then TrimStart(s[1..]) else s
  }

  function TrimEnd(s: string): (r: string)
    ensures |r| <= |s|
    ensures r == [] || !IsWhitespace(r[|r| - 1])
  {
    if s != [] && IsWhitespace(s[|s| - 1]) then TrimEnd(s[..|s| - 1]) else s
  }

  /** `str::trim`. */
  function Trim(s: string): string {
    TrimEnd(TrimStart(s))
  }

  /** The leading run of non-whitespace characters of `s`. */
  function WordPrefix(s: string): (r: string)
    ensures |r| <= |s|
    ensures s != [] && !IsWhitespace(s[0]) ==> |r| > 0
  {
    if s != [] && !IsWhitespace(s[0]) then [s[0]] + WordPrefix(s[1..]) else []
  }

  /** `str::split_whitespace`: the maximal whitespace-free runs, in order. */
  function SplitWhitespace(s: string): seq<string>
    decreases |s|
  {
    var t := TrimStart(s);
    if t == [] then [] else
      var w := WordPrefix(t);
      [w] + SplitWhitespace(t[|w|..])
  }

  /** `[String]::join(sep)`. */
  function Join(parts: seq<string>, sep: string): string {
    if parts == [] then []
    else if |parts| == 1 then parts[0]
    else parts[0] + sep + Join(parts[1..], sep)
  }

  lemma {:induction false} WordPrefixIsWord(s: string)
    requires s != [] && !IsWhitespace(s[0])
    ensures IsWord(WordPrefix(s))
    ensures WordPrefix(s) == s[..|WordPrefix(s)|]
    ensures |WordPrefix(s)| == |s| || IsWhitespace(s[|WordPrefix(s)|])
  {
    var w := WordPrefix(s);
    var t := s[1..];
    if |s| > 1 && !IsWhitespace(s[1]) {
      WordPrefixIsWord(t);
      var u := WordPrefix(t);
      assert w == [s[0]] + u;
      ConsPrefix(s, u);
    } else {
      assert WordPrefix(t) == [];
      assert w == [s[0]];
      assert w == s[..1];
    }
  }

  lemma ConsPrefix(s: string, u: string)
    requires s != [] && !IsWhitespace(s[0])
    requires |u| < |s| && IsWord(u) && u == s[1..][..|u|]
    ensures IsWord([s[0]] + u) && [s[0]] + u == s[..|u| + 1]
  {
    var w := [s[0]] + u;
    assert forall i :: 0 < i < |w| ==> w[i] == u[i - 1];
  }

  /** Every token `split_whitespace` yields is a non-empty whitespace-free word. */
  lemma {:induction false} SplitWhitespaceWords(s: string)
    ensures forall i :: 0 <= i < |SplitWhitespace(s)| ==> IsWord(SplitWhitespace(s)[i])
    decreases |s|
  {
    var t := TrimStart(s);
    if t != [] {
      var w := WordPrefix(t);
      WordPrefixIsWord(t);
      SplitWhitespaceWords(t[|w|..]);
    }
  }

  lemma {:induction false} WordPrefixOfWord(w: string, rest: string)
    requires IsWord(w)
    requires rest == [] || IsWhitespace(rest[0])
    ensures WordPrefix(w + rest) == w
  {
    if |w| > 1 {
      assert (w + rest)[1..] == w[1..] + rest;
      WordPrefixOfWord(w[1..], rest);
    } else {
      assert (w + rest)[1..] == rest;
    }
  }

  /** Splitting single-space-joined words gives back the words. */
  lemma {:induction false} SplitJoinedWords(ws: seq<string>)
    requires forall i :: 0 <= i < |ws| ==> IsWord(ws[i])
    ensures SplitWhitespace(Join(ws, " ")) == ws
  {
    if ws == [] {
    } else if |ws| == 1 {
      var s := ws[0];
      WordPrefixOfWord(s, []);
      assert s + [] == s;
    } else {
      var tail := Join(ws[1..], " ");
      var rest := " " + tail;
      var s := ws[0] + rest;
      assert Join(ws, " ") == s;
      WordPrefixOfWord(ws[0], rest);
      assert s[|ws[0]|..] == rest;
      assert rest[1..] == tail;
      SplitJoinedWords(ws[1..]);
    }
  }

  /** Re-joining the tokens with single spaces and splitting again changes nothing:
      `split_whitespace` followed by `join(" ")` only collapses whitespace runs. */
  lemma CollapseWhitespaceIsStable(s: string)
    ensures SplitWhitespace(Join(SplitWhitespace(s), " ")) == SplitWhitespace(s)
  {
    SplitWhitespaceWords(s);
    SplitJoinedWords(SplitWhitespace(s));
  }

  /** A word followed by nothing or by whitespace is split off as one token. */
  lemma SplitWordThen(w: string, rest: string)
    requires IsWord(w)
    requires rest == [] || IsWhitespace(rest[0])
    ensures SplitWhitespace(w + rest) == [w] + SplitWhitespace(rest)
  {
    var s := w + rest;
    assert s[0] == w[0];
    assert TrimStart(s) == s;
    WordPrefixOfWord(w, rest);
    assert s[|w|..] == rest;
  }

  /** Leading whitespace does not change the tokens. */
  lemma SplitSkipsWhitespace(c: char, s: string)
    requires IsWhitespace(c)
    ensures SplitWhitespace([c] + s) == SplitWhitespace(s)
  {
    assert ([c] + s)[1..] == s;
    assert TrimStart([c] + s) == TrimStart(s);
  }

  predicate StartsWith(s: string, prefix: string) {
    |prefix| <= |s| && s[..|prefix|] == prefix
  }

  // ---------------------------------------------------------------------------
  // Lines

  /** Index of the first `c` in `s`, or `|s|` when there is none. */
  function IndexOf(s: string, c: char): (i: nat)
    ensures i <= |s|
    ensures i < |s| ==> s[i] == c
  {
    if s == [] then 0 else if s[0] == c then 0 else 1 + IndexOf(s[1..], c)
  }

  lemma {:induction false} IndexOfAfterFree(l: string, c: char, rest: string)
    requires c !in l
    ensures IndexOf(l + [c] + rest, c) == |l|
  {
    if l != [] {
      assert (l + [c] + rest)[1..] == l[1..] + [c] + rest;
      IndexOfAfterFree(l[1..], c, rest);
    }
  }

  /** `str::find` for a character: the first index of `c`, if any. */
  function Find(s: string, c: char): (r: Option<nat>)
    ensures r.Some? ==> r.value < |s| && s[r.value] == c
  {
    var i := IndexOf(s, c);
    if i < |s| then Some(i) else None
  }

  /** `str::rfind` for a character: the last index of `c`, if any. */
  function RFind(s: string, c: char): (r: Option<nat>)
    ensures r.Some? ==> r.value < |s| && s[r.value] == c
  {
    if s == [] then None
    else if s[|s| - 1] == c then Some(|s| - 1)
    else RFind(s[..|s| - 1], c)
  }

  /** `find` gives the first occurrence and `None` exactly when there is none. */
  lemma {:induction false} FindFirst(s: string, c: char)
    ensures Find(s, c).None? <==> c !in s
    ensures Find(s, c).Some? ==> c !in s[..Find(s, c).value]
  {
    if s != [] && s[0] != c {
      FindFirst(s[1..], c);
      assert s == [s[0]] + s[1..];
      if Find(s, c).Some? {
        assert s[..Find(s, c).value] == [s[0]] + s[1..][..Find(s[1..], c).value];
      }
    }
  }

  /** `rfind` gives the last occurrence and `None` exactly when there is none. */
  lemma {:induction false} RFindLast(s: string, c: char)
    ensures RFind(s, c).None? <==> c !in s
    ensures RFind(s, c).Some? ==> c !in s[RFind(s, c).value + 1..]
  {
    if s != [] && s[|s| - 1] != c {
      var pre := s[..|s| - 1];
      RFindLast(pre, c);
      assert s == pre + [s[|s| - 1]];
      if RFind(s, c).Some? {
        assert s[RFind(s, c).value + 1..] == pre[RFind(pre, c).value + 1..] + [s[|s| - 1]];
      }
    }
  }

  lemma {:induction false} RFindBeforeFree(l: string, c: char, rest: string)
    requires c !in rest
    ensures RFind(l + [c] + rest, c) == Some(|l|)
  {
    if rest != [] {
      var s := l + [c] + rest;
      assert s[..|s| - 1] == l + [c] + rest[..|rest| - 1];
      assert s[|s| - 1] == rest[|rest| - 1];
      RFindBeforeFree(l, c, rest[..|rest| - 1]);
    } else {
      assert (l + [c] + rest)[..|l| + 1 - 1] == l;
    }
  }

  function StripCr(l: string): string {
    if l != [] && l[|l| - 1] == '\r' then l[..|l| - 1] else l
  }

  /** `str::lines`: split at `\n`, drop a `\r` just before each `\n`, and no
      empty last line after a final `\n`. */
  function Lines(s: string): seq<string>
    decreases |s|
  {
    if s == [] then []
    else
      var i := IndexOf(s, '\n');
      if i == |s| then [s] else [StripCr(s[..i])] + Lines(s[i + 1..])
  }

  /** The text of `ls`, each line terminated by `\n`. */
  function Unlines(ls: seq<string>): string {
    if ls == [] then [] else ls[0] + "\n" + Unlines(ls[1..])
  }

  /** A line `lines` can give back unchanged: no `\n`, and no `\r` at its end. */
  predicate PlainLine(l: string) {
    '\n' !in l && (l == [] || l[|l| - 1] != '\r')
  }

  /** `lines` inverts `Unlines` on plain lines. */
  lemma {:induction false} LinesOfUnlines(ls: seq<string>)
    requires forall i :: 0 <= i < |ls| ==> PlainLine(ls[i])
    ensures Lines(Unlines(ls)) == ls
  {
    if ls != [] {
      var l := ls[0];
      var rest := Unlines(ls[1..]);
      var s := l + "\n" + rest;
      assert PlainLine(l);
      IndexOfAfterFree(l, '\n', rest);
      assert s[..|l|] == l;
      assert s[|l| + 1..] == rest;
      LinesOfUnlines(ls[1..]);
    }
  }

  // ---------------------------------------------------------------------------
  // Decimal digits

  predicate IsDigit(c: char) { '0' <= c <= '9' }

  predicate AllDigits(s: string) { forall i :: 0 <= i < |s| ==> IsDigit(s[i]) }

  function DigitValue(c: char): (d: nat)
    requires IsDigit(c)
    ensures d < 10
  {
    (c as int) - ('0' as int)
  }

  function DigitChar(d: nat): (c: char)
    requires d < 10
    ensures IsDigit(c) && DigitValue(c) == d
  {
    ('0' as int + d) as char
  }

  /** The number a string of decimal digits denotes (leading zeros allowed). */
  function DigitsValue(s: string): nat
    requires AllDigits(s)
  {
    if s == [] then 0 else DigitsValue(s[..|s| - 1]) * 10 + DigitValue(s[|s| - 1])
  }

  /** Decimal rendering of a natural number, as Rust's `Display` prints it. */
  function NatToString(n: nat): (s: string)
    ensures s != [] && AllDigits(s) && DigitsValue(s) == n
    ensures s[0] == '0' ==> n == 0
  {
    if n < 10 then [DigitChar(n)]
    else
      var s := NatToString(n / 10) + [DigitChar(n % 10)];
      assert s[..|s| - 1] == NatToString(n / 10);
      s
  }

  lemma {:induction false} NatToStringLength(n: nat)
    ensures n < 10 <==> |NatToString(n)| == 1
    ensures 10 <= n < 100 ==> |NatToString(n)| == 2
  {
    if n >= 10 { NatToStringLength(n / 10); }
  }

  /** Decimal rendering of an integer, with a leading `-` when negative. */
  function IntToString(x: int): (s: string)
    ensures s != [] && s[|s| - 1] != '-'
    ensures forall i :: 0 <= i < |s| ==> s[i] == '-' || IsDigit(s[i])
  {
    if x < 0 then "-" + NatToString(-x) else NatToString(x)
  }

  /** Decimal renderings are single tokens, free of whitespace and parentheses. */
  lemma NatToStringIsWord(n: nat)
    ensures IsWord(NatToString(n))
    ensures '(' !in NatToString(n) && ')' !in NatToString(n)
  {
    var s := NatToString(n);
    forall i | 0 <= i < |s| ensures !IsWhitespace(s[i]) && s[i] != '(' && s[i] != ')' {
      assert IsDigit(s[i]);
    }
  }

  lemma IntToStringIsWord(x: int)
    ensures IsWord(IntToString(x))
    ensures '(' !in IntToString(x) && ')' !in IntToString(x)
  {
    var s := IntToString(x);
    forall i | 0 <= i < |s| ensures !IsWhitespace(s[i]) && s[i] != '(' && s[i] != ')' {
      assert s[i] == '-' || IsDigit(s[i]);
    }
  }

  // ---------------------------------------------------------------------------
  // Integer parsing

  /** `str::parse::<u64>`: an optional `+`, then one or more ASCII digits whose
      value fits in 64 bits; anything else (a `-` included) is an error. */
  function ParseU64(s: string): (r: Option<nat>)
    ensures r.Some? ==> r.value <= U64_MAX
  {
    var digits := if s != [] && s[0] == '+' then s[1..] else s;
    if digits == [] || !AllDigits(digits) then None
    else if DigitsValue(digits) > U64_MAX then None
    else Some(DigitsValue(digits))
  }

  /** `str::parse::<i32>`: an optional `+` or `-`, then one or more ASCII digits
      whose signed value fits in 32 bits. */
  function ParseI32(s: string): (r: Option<int>)
    ensures r.Some? ==> IsI32(r.value)
  {
    var negative := s != [] && s[0] == '-';
    var digits := if s != [] && (s[0] == '+' || s[0] == '-') then s[1..] else s;
    if digits == [] || !AllDigits(digits) then None
    else
      var mag: int := DigitsValue(digits);
      var v := if negative then -mag else mag;
      if IsI32(v) then Some(v) else None
  }

  /** Parsing what `Display` prints gives the number back. */
  lemma ParseU64OfNatToString(n: nat)
    requires n <= U64_MAX
    ensures ParseU64(NatToString(n)) == Some(n)
  {
  }

  lemma ParseI32OfIntToString(x: int)
    requires IsI32(x)
    ensures ParseI32(IntToString(x)) == Some(x)
  {
    if x < 0 {
      assert IntToString(x)[1..] == NatToString(-x);
    }
  }

  /** `{:02}`: at least two digits, zero padded. */
  function Pad2(n: nat): (s: string)
    ensures |s| >= 2 && AllDigits(s) && DigitsValue(s) == n
    ensures n < 100 ==> |s| == 2
  {
    var d := NatToString(n);
    if n < 10 then
      assert DigitsValue(['0'] + d) == n by {
        assert (['0'] + d)[..1] == ['0'];
      }
      ['0'] + d
    else
      NatToStringLength(n);
      d
  }
}
