/** The text of an HTTP/1.1 head and of its chunk-size lines, as src/net/HttpCodec.cpp reads them. */
module HttpText {
  import opened Basics
  import opened HttpMachine
  import H = HexText

  // ── characters and numbers ──────────────────────────────────────────────────

  function Lower(c: char): char { if 'A' <= c <= 'Z' then (c as int + 32) as char else c }

  function AllLower(s: string): (r: string)
    ensures |r| == |s|
  {
    seq(|s|, i requires 0 <= i < |s| => Lower(s[i]))
  }

  function DigitOf(c: char): nat {
    if '0' <= c <= '9' then c as nat - '0' as nat
    else if 'a' <= c <= 'z' then c as nat - 'a' as nat + 10
    else if 'A' <= c <= 'Z' then c as nat - 'A' as nat + 10
    else 36
  }

  function DigitPrefix(s: string, base: nat): string {
    if s == "" || DigitOf(s[0]) >= base then "" else [s[0]] + DigitPrefix(s[1..], base)
  }

  function ValueOf(s: string, base: nat): nat {
    if s == "" then 0 else ValueOf(s[..|s| - 1], base) * base + DigitOf(s[|s| - 1])
  }

  /** Reads the longest run of digits at the front; no digits or a value over 64 bits is an error. */
  function FromChars(s: string, base: nat): Option<nat> {
    var d := DigitPrefix(s, base);
    if d == "" || ValueOf(d, base) >= 0x1_0000_0000_0000_0000 then None else Some(ValueOf(d, base))
  }

  /** The same for a signed number of at most three characters. */
  function FromCharsSigned(s: string): Option<int> {
    var negative := s != "" && s[0] == '-';
    match FromChars(if negative then s[1..] else s, 10)
    case None => None
    case Some(n) => var v: int := n; Some(if negative then -v else v)
  }

  /** Conversion of a 64-bit count to a 32-bit signed integer. */
  function ToInt32(n: nat): int {
    var low := n % 0x1_0000_0000;
    if low < 0x8000_0000 then low else low - 0x1_0000_0000
  }

  // ── searching and trimming ──────────────────────────────────────────────────

  function TrimFront(s: string): string {
    if s != "" && (s[0] == ' ' || s[0] == '\t') then TrimFront(s[1..]) else s
  }

  function TrimBack(s: string): string {
    if s != "" && (s[|s| - 1] == ' ' || s[|s| - 1] == '\t' || s[|s| - 1] == '\r') then TrimBack(s[..|s| - 1]) else s
  }

  function Trim(s: string): string { TrimBack(TrimFront(s)) }

  /** The part of `s` before the first `c`, or all of it. */
  function UpTo(s: string, c: char): (r: string)
    ensures |r| <= |s|
  {
    if s == "" || s[0] == c then "" else [s[0]] + UpTo(s[1..], c)
  }

  predicate Contains(s: string, token: string)
    decreases |s|
  {
    token <= s || (s != "" && Contains(s[1..], token))
  }

  predicate HasPrefix(line: string, name: string) {
    |name| <= |line| && AllLower(line[..|name|]) == name
  }

  const CRLF: string := "\r\n"

  /** Index of the first line break, or the length of the text if there is none. */
  function FindBreak(s: string): (k: nat)
    ensures k <= |s| && (k == |s| || IsBreak(s, k))
  {
    if s == "" || IsBreak(s, 0) then 0 else 1 + FindBreak(s[1..])
  }

  predicate IsBreak(s: string, k: nat) { k + 1 < |s| && s[k] == '\r' && s[k + 1] == '\n' }

  // ── the head ────────────────────────────────────────────────────────────────

  datatype Fields = Bad | Fields(chunked: bool, length: Option<nat>, retryAfter: int, keepAlive: bool)

  /** What one header line contributes. */
  function ApplyLine(f: Fields, line: string): Fields
    requires f.Fields?
  {
    var name := UpTo(line, ':');
    if |name| == |line| then f
    else
      var value := Trim(line[|name| + 1..]);
      if HasPrefix(line, "content-length:") then
        var n := FromChars(value, 10); if n.None? then Bad else f.(length := n)
      else if HasPrefix(line, "transfer-encoding:") then f.(chunked := Contains(AllLower(value), "chunked"))
      else if HasPrefix(line, "retry-after:") then
        var n := FromChars(value, 10); if n.None? then f else f.(retryAfter := ToInt32(n.value))
      else if HasPrefix(line, "connection:") then
        if Contains(AllLower(value), "close") then f.(keepAlive := false)
        else if Contains(AllLower(value), "keep-alive") then f.(keepAlive := true) else f
      else f
  }

  function ApplyLines(f: Fields, lines: seq<string>): Fields
    decreases |lines|
  {
    if f.Bad? || lines == [] then f else ApplyLines(ApplyLine(f, lines[0]), lines[1..])
  }

  /** The lines up to the blank line. */
  function HeaderLines(s: string): seq<string>
    decreases |s|
  {
    var eol := FindBreak(s);
    if eol == |s| || eol == 0 then [] else [s[..eol]] + HeaderLines(s[eol + 2..])
  }

  /** Section 6.3 of RFC 9112: how long the body is. */
  function FramingOf(code: int, f: Fields): Framing
    requires f.Fields?
  {
    if code == 204 || code == 304 || 100 <= code < 200 then NoBody
    else if f.chunked then Chunked
    else if f.length.Some? then Length(f.length.value)
    else ToClose
  }

  function Interpret(statusLine: string, lines: seq<string>): Head {
    if !("HTTP/1." <= statusLine) || |statusLine| < 12 then BadHead
    else
      var code := FromCharsSigned(statusLine[9..12]);
      if code.None? then BadHead
      else
        var f := ApplyLines(Fields(false, None, 0, !("HTTP/1.0" <= statusLine)), lines);
        if f.Bad? then BadHead
        else
          var framing := FramingOf(code.value, f);
          Head(code.value, f.keepAlive && !framing.ToClose?, f.retryAfter, framing)
  }

  function ParseHead(head: string): Head {
    var eol := FindBreak(head);
    Interpret(head[..eol], if eol == |head| then [] else HeaderLines(head[eol + 2..]))
  }

  /** The scan of the header lines, line break by line break. */
  method ScanLines(text: string, start: Fields) returns (f: Fields)
    requires start.Fields?
    ensures f == ApplyLines(start, HeaderLines(text))
  {
    f := start;
    var rest := text;
    while rest != ""
      invariant f.Fields? && ApplyLines(start, HeaderLines(text)) == ApplyLines(f, HeaderLines(rest))
      decreases |rest|
    {
      var eol := FindBreak(rest);
      if eol == |rest| || eol == 0 { return; }
      ghost var lines := HeaderLines(rest);
      assert lines[0] == rest[..eol] && lines[1..] == HeaderLines(rest[eol + 2..]);
      f := ApplyLine(f, rest[..eol]);
      if f.Bad? { return; }
      rest := rest[eol + 2..];
    }
  }

  method ReadHead(head: string) returns (h: Head)
    ensures h == ParseHead(head)
  {
    var eol := FindBreak(head);
    var statusLine := head[..eol];
    if !("HTTP/1." <= statusLine) || |statusLine| < 12 { return BadHead; }
    var code := FromCharsSigned(statusLine[9..12]);
    if code.None? { return BadHead; }
    var f := Fields(false, None, 0, !("HTTP/1.0" <= statusLine));
    if eol < |head| { f := ScanLines(head[eol + 2..], f); }
    if f.Bad? { return BadHead; }
    var framing := FramingOf(code.value, f);
    h := Head(code.value, f.keepAlive && !framing.ToClose?, f.retryAfter, framing);
  }

  predicate EndsHead(s: string) { |s| >= 4 && s[|s| - 4..] == "\r\n\r\n" }

  function ChunkSize(line: string): Option<nat> { FromChars(UpTo(Trim(line), ';'), 16) }

  function Http(): Rules<char> {
    Rules((s: string) => EndsHead(s), (s: string) => ParseHead(s), (c: char) => c == '\n',
          (s: string) => ChunkSize(s), (s: string) => Trim(s) == "")
  }

  // ── a head is read line by line ─────────────────────────────────────────────

  /** A line holds no line break. */
  ghost predicate IsHeaderLine(line: string) {
    line != "" && forall i :: 0 <= i < |line| ==> !IsBreak(line, i)
  }

  ghost predicate AllHeaderLines(lines: seq<string>) {
    lines == [] || (IsHeaderLine(lines[0]) && AllHeaderLines(lines[1..]))
  }

  function JoinLines(lines: seq<string>): string {
    if lines == [] then "" else lines[0] + CRLF + JoinLines(lines[1..])
  }

  lemma {:induction false} FirstBreak(s: string, k: nat)
    requires IsBreak(s, k) && forall i :: 0 <= i < k ==> !IsBreak(s, i)
    ensures FindBreak(s) == k
  {
    if k > 0 {
      var t := s[1..];
      assert IsBreak(t, k - 1);
      forall i | 0 <= i < k - 1 ensures !IsBreak(t, i) { assert !IsBreak(s, i + 1); }
      assert !IsBreak(s, 0);
      FirstBreak(t, k - 1);
    }
  }

  lemma BreakAfter(line: string, rest: string)
    requires IsHeaderLine(line)
    ensures var s := line + (CRLF + rest); FindBreak(s) == |line| && s[..|line|] == line && s[|line| + 2..] == rest
  {
    var s := line + (CRLF + rest);
    assert s[|line|] == '\r' && s[|line| + 1] == '\n';
    forall i | 0 <= i < |line| ensures !IsBreak(s, i) { assert !IsBreak(line, i); }
    FirstBreak(s, |line|);
  }

  lemma {:induction false} LinesRead(lines: seq<string>)
    requires AllHeaderLines(lines)
    ensures HeaderLines(JoinLines(lines) + CRLF) == lines
    decreases |lines|
  {
    if lines == [] {
      assert JoinLines(lines) + CRLF == CRLF && IsBreak(CRLF, 0);
    } else {
      var rest := JoinLines(lines[1..]) + CRLF;
      assert JoinLines(lines) + CRLF == lines[0] + (CRLF + rest);
      BreakAfter(lines[0], rest);
      LinesRead(lines[1..]);
    }
  }

  function HeadText(statusLine: string, lines: seq<string>): string { statusLine + (CRLF + (JoinLines(lines) + CRLF)) }

  /** A head written line by line means what its lines mean, one after the other. */
  lemma HeadReadLineByLine(statusLine: string, lines: seq<string>)
    requires IsHeaderLine(statusLine) && AllHeaderLines(lines)
    ensures ParseHead(HeadText(statusLine, lines)) == Interpret(statusLine, lines)
  {
    BreakAfter(statusLine, JoinLines(lines) + CRLF);
    LinesRead(lines);
  }

  // ── chunk-size lines ────────────────────────────────────────────────────────

  predicate Blank(c: char) { c == ' ' || c == '\t' || c == '\r' }

  lemma {:induction false} TrimBackAfter(d: string, e: string)
    requires d != "" && !Blank(d[|d| - 1])
    ensures TrimBack(d + e) == d + TrimBack(e)
    decreases |e|
  {
    if e == "" {
      assert d + e == d;
    } else if Blank(e[|e| - 1]) {
      assert (d + e)[..|d + e| - 1] == d + e[..|e| - 1];
      TrimBackAfter(d, e[..|e| - 1]);
    }
  }

  predicate AllDigits(d: string, base: nat) { forall i :: 0 <= i < |d| ==> DigitOf(d[i]) < base }

  lemma {:induction false} UpToAfter(d: string, e: string)
    requires AllDigits(d, 16) && (e == "" || e[0] == ';')
    ensures UpTo(d + e, ';') == d
  {
    if d == "" {
      assert d + e == e;
    } else {
      assert (d + e)[1..] == d[1..] + e;
      UpToAfter(d[1..], e);
      assert [d[0]] + d[1..] == d;
    }
  }

  lemma {:induction false} DigitPrefixAll(d: string)
    requires AllDigits(d, 16)
    ensures DigitPrefix(d, 16) == d
  {
    if d != "" {
      DigitPrefixAll(d[1..]);
      assert [d[0]] + d[1..] == d;
    }
  }

  /** An extension starts with a semicolon. */
  predicate IsExtension(ext: string) { ext == "" || ext[0] == ';' }

  lemma TrimmedExtension(ext: string)
    requires IsExtension(ext)
    ensures IsExtension(TrimBack(ext + "\r"))
  {
    if ext == "" {
      assert ext + "\r" == "\r" && "\r"[..0] == "";
      assert TrimBack("") == "";
    } else {
      assert ext + "\r" == ";" + (ext[1..] + "\r");
      TrimBackAfter(";", ext[1..] + "\r");
    }
  }

  /** A size line of hexadecimal digits, in either case, with leading zeros and with an extension or without. */
  lemma SizeLineRead(digits: string, ext: string)
    requires digits != "" && AllDigits(digits, 16) && ValueOf(digits, 16) < 0x1_0000_0000_0000_0000 && IsExtension(ext)
    ensures ChunkSize(digits + ext + "\r") == Some(ValueOf(digits, 16))
  {
    var line := digits + ext + "\r";
    assert line == digits + (ext + "\r");
    assert line[0] == digits[0] && TrimFront(line) == line;
    TrimBackAfter(digits, ext + "\r");
    TrimmedExtension(ext);
    UpToAfter(digits, TrimBack(ext + "\r"));
    DigitPrefixAll(digits);
  }

  function HexDigit(d: nat): (c: char)
    requires d < 16
    ensures DigitOf(c) == d
  {
    if d < 10 then ('0' as int + d) as char else ('a' as int + d - 10) as char
  }

  function HexText(n: nat): (s: string)
    ensures s != ""
  {
    if n < 16 then [HexDigit(n)] else HexText(n / 16) + [HexDigit(n % 16)]
  }

  lemma {:induction false} HexTextValue(n: nat)
    ensures AllDigits(HexText(n), 16) && ValueOf(HexText(n), 16) == n
  {
    var s := HexText(n);
    if n < 16 {
      assert ValueOf(s[..0], 16) == 0;
    } else {
      HexTextValue(n / 16);
      assert s[..|s| - 1] == HexText(n / 16);
    }
  }

  /** Sizes below 16^k take at most k digits. */
  lemma {:induction false} HexTextLength(n: nat, k: nat)
    requires k > 0 && n < H.Pow16(k)
    ensures |HexText(n)| <= k
  {
    if n >= 16 { HexTextLength(n / 16, k - 1); }
  }

  // ── where a head ends ───────────────────────────────────────────────────────

  lemma {:induction false} NoEarlyBlank(lines: seq<string>, i: nat)
    requires lines != [] && AllHeaderLines(lines)
    requires var s := JoinLines(lines) + CRLF; i + 4 < |s|
    ensures var s := JoinLines(lines) + CRLF; !(IsBreak(s, i) && IsBreak(s, i + 2))
    decreases |lines|
  {
    var line, rest := lines[0], JoinLines(lines[1..]) + CRLF;
    var s := JoinLines(lines) + CRLF;
    assert s == line + (CRLF + rest);
    if i < |line| {
      assert !IsBreak(line, i);
    } else if i == |line| {
      if lines[1..] != [] { NotAtFront(lines[1..]); }
    } else if i >= |line| + 2 {
      assert s[|line| + 2..] == rest;
      var j := i - (|line| + 2);
      assert IsBreak(s, i) ==> IsBreak(rest, j);
      assert IsBreak(s, i + 2) ==> IsBreak(rest, j + 2);
      if lines[1..] != [] { NoEarlyBlank(lines[1..], j); }
    }
  }

  lemma NotAtFront(lines: seq<string>)
    requires lines != [] && AllHeaderLines(lines)
    ensures !IsBreak(JoinLines(lines) + CRLF, 0)
  {
    var rest := JoinLines(lines[1..]) + CRLF;
    assert JoinLines(lines) + CRLF == lines[0] + (CRLF + rest);
    assert !IsBreak(lines[0], 0);
  }

  /** The blank line of a written head is its first. */
  lemma HeadEndsOnce(statusLine: string, lines: seq<string>)
    requires IsHeaderLine(statusLine) && AllHeaderLines(lines)
    ensures var s := HeadText(statusLine, lines); EndsHead(s) && forall k :: 0 <= k < |s| ==> !EndsHead(s[..k])
  {
    var s, all := HeadText(statusLine, lines), [statusLine] + lines;
    assert all[1..] == lines && s == JoinLines(all) + CRLF;
    EndsWithBlank(all);
    forall k | 0 <= k < |s| ensures !EndsHead(s[..k]) {
      if k >= 4 {
        NoEarlyBlank(all, k - 4);
        if EndsHead(s[..k]) { BlankIsTwoBreaks(s, k); }
      }
    }
  }

  lemma BlankIsTwoBreaks(s: string, k: nat)
    requires 4 <= k <= |s| && EndsHead(s[..k])
    ensures IsBreak(s, k - 4) && IsBreak(s, k - 2)
  {
    var q := s[..k][k - 4..];
    assert q[0] == s[k - 4] && q[1] == s[k - 3] && q[2] == s[k - 2] && q[3] == s[k - 1];
  }

  lemma {:induction false} EndsWithBlank(lines: seq<string>)
    requires lines != []
    ensures EndsHead(JoinLines(lines) + CRLF)
    decreases |lines|
  {
    var rest := JoinLines(lines[1..]) + CRLF;
    var s := JoinLines(lines) + CRLF;
    assert s == lines[0] + (CRLF + rest);
    if lines[1..] == [] {
      assert rest == CRLF;
      assert s[|s| - 4..] == "\r\n\r\n";
    } else {
      EndsWithBlank(lines[1..]);
      assert s[|s| - 4..] == rest[|rest| - 4..];
    }
  }
}
