/** What the header lines of a response mean, told by what a sender writes. */
module HttpHeaders {
  import opened Basics
  import opened HttpMachine
  import opened HttpText
  import opened HttpResponses

  // ── names and values ────────────────────────────────────────────────────────

  predicate Blanks(s: string) { forall i :: 0 <= i < |s| ==> s[i] == ' ' || s[i] == '\t' }

  /** A header field: its name, a colon and its value. */
  function FieldLine(name: string, value: string): string { name + (":" + value) }

  /** The name in any mixture of cases. */
  predicate IsNamed(name: string, lower: string) {
    AllLower(name) == lower && forall i :: 0 <= i < |name| ==> name[i] != ':'
  }

  lemma {:induction false} NameEnds(name: string, value: string)
    requires forall i :: 0 <= i < |name| ==> name[i] != ':'
    ensures UpTo(FieldLine(name, value), ':') == name
  {
    if name == "" {
      assert FieldLine(name, value) == ":" + value;
    } else {
      assert FieldLine(name, value)[1..] == FieldLine(name[1..], value);
      NameEnds(name[1..], value);
      assert [name[0]] + name[1..] == name;
    }
  }

  /** The line starts with the name and its colon. */
  lemma PrefixIsName(name: string, value: string, lower: string)
    requires IsNamed(name, lower)
    ensures HasPrefix(FieldLine(name, value), lower + ":")
  {
    var line, n := FieldLine(name, value), |name|;
    var front := line[..n + 1];
    assert front == name + ":";
    forall i | 0 <= i < n + 1 ensures AllLower(front)[i] == (lower + ":")[i] {
      if i < n { assert AllLower(name)[i] == lower[i]; }
    }
  }

  /** A line named otherwise, as its letter at some place shows, does not. */
  lemma PrefixDiffers(name: string, value: string, lower: string, key: string, i: nat)
    requires IsNamed(name, lower) && i < |key| && i < |lower| && lower[i] != key[i]
    ensures !HasPrefix(FieldLine(name, value), key)
  {
    var line := FieldLine(name, value);
    assert line[i] == name[i] && Lower(name[i]) == AllLower(name)[i];
    if |key| <= |line| { assert AllLower(line[..|key|])[i] == Lower(line[i]); }
  }

  lemma {:induction false} FrontTrimmed(before: string, s: string)
    requires Blanks(before) && s != "" && !Blank(s[0])
    ensures TrimFront(before + s) == s
  {
    if before == "" {
      assert before + s == s;
    } else {
      assert (before + s)[1..] == before[1..] + s;
      FrontTrimmed(before[1..], s);
    }
  }

  lemma {:induction false} BackTrimmed(after: string)
    requires Blanks(after)
    ensures TrimBack(after) == ""
  {
    if after != "" { BackTrimmed(after[..|after| - 1]); }
  }

  /** Blanks around a value are no part of it. */
  lemma Trimmed(before: string, v: string, after: string)
    requires Blanks(before) && Blanks(after) && v != "" && !Blank(v[0]) && !Blank(v[|v| - 1])
    ensures Trim(before + (v + after)) == v
  {
    FrontTrimmed(before, v + after);
    TrimBackAfter(v, after);
    BackTrimmed(after);
    assert v + "" == v;
  }

  // ── numbers ─────────────────────────────────────────────────────────────────

  lemma {:induction false} AllPrefix(d: string, base: nat)
    requires AllDigits(d, base)
    ensures DigitPrefix(d, base) == d
  {
    if d != "" {
      AllPrefix(d[1..], base);
      assert [d[0]] + d[1..] == d;
    }
  }

  lemma DigitIsNoBlank(d: string)
    requires d != "" && AllDigits(d, 10)
    ensures !Blank(d[0]) && !Blank(d[|d| - 1])
  {
    assert DigitOf(d[0]) < 10 && DigitOf(d[|d| - 1]) < 10;
  }

  function Digit(n: nat): (c: char)
    requires n < 10
    ensures DigitOf(c) == n
  {
    ('0' as int + n) as char
  }

  /** A number as it is written in decimal. */
  function DecimalOf(n: nat): (s: string)
    ensures s != ""
  {
    if n < 10 then [Digit(n)] else DecimalOf(n / 10) + [Digit(n % 10)]
  }

  lemma {:induction false} DecimalRead(n: nat)
    ensures AllDigits(DecimalOf(n), 10) && ValueOf(DecimalOf(n), 10) == n
  {
    var s := DecimalOf(n);
    if n < 10 {
      assert s[..0] == "" && ValueOf("", 10) == 0;
    } else {
      DecimalRead(n / 10);
      assert s[..|s| - 1] == DecimalOf(n / 10);
    }
  }

  /** Digits with blanks around them are read as the number, unless it is over 64 bits. */
  lemma NumberRead(before: string, d: string, after: string)
    requires Blanks(before) && Blanks(after) && d != "" && AllDigits(d, 10)
    ensures FromChars(Trim(before + (d + after)), 10) == if ValueOf(d, 10) < WORD then Some(ValueOf(d, 10)) else None
  {
    DigitIsNoBlank(d);
    Trimmed(before, d, after);
    AllPrefix(d, 10);
  }

  const WORD: nat := 0x1_0000_0000_0000_0000

  // ── one line ────────────────────────────────────────────────────────────────

  /** A content length in decimal digits, with any blanks around it: the length, unless it is over 64 bits. */
  lemma ContentLengthLine(f: Fields, name: string, before: string, d: string, after: string)
    requires f.Fields? && IsNamed(name, "content-length") && Blanks(before) && Blanks(after)
    requires d != "" && AllDigits(d, 10)
    ensures ApplyLine(f, FieldLine(name, before + (d + after)))
         == if ValueOf(d, 10) < WORD then f.(length := Some(ValueOf(d, 10))) else Bad
  {
    var value := before + (d + after);
    NameEnds(name, value);
    PrefixIsName(name, value, "content-length");
    NumberRead(before, d, after);
    assert "content-length" + ":" == "content-length:";
    assert FieldLine(name, value)[|name| + 1..] == value;
  }

  /** A coding that contains the word `chunked` in any case, and no other, makes the body chunked. */
  lemma TransferEncodingLine(f: Fields, name: string, value: string)
    requires f.Fields? && IsNamed(name, "transfer-encoding")
    ensures ApplyLine(f, FieldLine(name, value)) == f.(chunked := Contains(AllLower(Trim(value)), "chunked"))
  {
    NameEnds(name, value);
    assert "content-length:"[0] == 'c' && "transfer-encoding"[0] == 't';
    PrefixDiffers(name, value, "transfer-encoding", "content-length:", 0);
    PrefixIsName(name, value, "transfer-encoding");
    assert "transfer-encoding" + ":" == "transfer-encoding:";
    assert FieldLine(name, value)[|name| + 1..] == value;
  }

  /** The seconds in decimal digits, cut to the 32 bits the code keeps; a number over 64 bits says nothing. */
  lemma RetryAfterLine(f: Fields, name: string, before: string, d: string, after: string)
    requires f.Fields? && IsNamed(name, "retry-after") && Blanks(before) && Blanks(after)
    requires d != "" && AllDigits(d, 10)
    ensures var f' := ApplyLine(f, FieldLine(name, before + (d + after)));
            && (ValueOf(d, 10) >= WORD ==> f' == f)
            && (ValueOf(d, 10) < WORD ==> f' == f.(retryAfter := ToInt32(ValueOf(d, 10))))
            && (ValueOf(d, 10) < 0x8000_0000 ==> f' == f.(retryAfter := ValueOf(d, 10)))
  {
    var value := before + (d + after);
    IsRetryAfter(name, value);
    NameEnds(name, value);
    NumberRead(before, d, after);
    assert FieldLine(name, value)[|name| + 1..] == value;
  }

  lemma IsRetryAfter(name: string, value: string)
    requires IsNamed(name, "retry-after")
    ensures var line := FieldLine(name, value);
            && !HasPrefix(line, "content-length:") && !HasPrefix(line, "transfer-encoding:")
            && HasPrefix(line, "retry-after:")
  {
    assert "content-length:"[0] == 'c' && "transfer-encoding:"[0] == 't' && "retry-after"[0] == 'r';
    PrefixDiffers(name, value, "retry-after", "content-length:", 0);
    PrefixDiffers(name, value, "retry-after", "transfer-encoding:", 0);
    PrefixIsName(name, value, "retry-after");
    assert "retry-after" + ":" == "retry-after:";
  }

  /** The word `chunked` in any case, anywhere in the value, makes the body chunked. */
  lemma ChunkedLine(f: Fields, name: string, before: string, v: string, after: string, i: nat)
    requires f.Fields? && IsNamed(name, "transfer-encoding") && Blanks(before) && Blanks(after)
    requires v != "" && !Blank(v[0]) && !Blank(v[|v| - 1]) && StandsAt(AllLower(v), "chunked", i)
    ensures ApplyLine(f, FieldLine(name, before + (v + after))) == f.(chunked := true)
  {
    TransferEncodingLine(f, name, before + (v + after));
    Trimmed(before, v, after);
    ContainsExactly(AllLower(v), "chunked");
  }

  /** `close` ends the connection whatever else is said, `keep-alive` keeps it, anything else says nothing. */
  lemma ConnectionLine(f: Fields, name: string, value: string)
    requires f.Fields? && IsNamed(name, "connection")
    ensures var v := AllLower(Trim(value));
            ApplyLine(f, FieldLine(name, value)) == if Contains(v, "close") then f.(keepAlive := false)
                                                    else if Contains(v, "keep-alive") then f.(keepAlive := true) else f
  {
    NameEnds(name, value);
    assert "content-length:"[3] == 't' && "transfer-encoding:"[0] == 't' && "retry-after:"[0] == 'r';
    assert "connection"[0] == 'c' && "connection"[3] == 'n';
    PrefixDiffers(name, value, "connection", "content-length:", 3);
    PrefixDiffers(name, value, "connection", "transfer-encoding:", 0);
    PrefixDiffers(name, value, "connection", "retry-after:", 0);
    PrefixIsName(name, value, "connection");
    assert "connection" + ":" == "connection:";
    assert FieldLine(name, value)[|name| + 1..] == value;
  }

  predicate StandsAt(s: string, token: string, i: nat) { i + |token| <= |s| && s[i..i + |token|] == token }

  /** A token is contained when it stands at some place. */
  lemma {:induction false} ContainsExactly(s: string, token: string)
    ensures Contains(s, token) <==> exists i: nat :: StandsAt(s, token, i)
    decreases |s|
  {
    if token <= s {
      assert StandsAt(s, token, 0);
    } else if s != "" {
      ContainsExactly(s[1..], token);
      forall i: nat ensures StandsAt(s, token, i + 1) == StandsAt(s[1..], token, i) { Shifted(s, token, i); }
      assert !StandsAt(s, token, 0);
      if i: nat :| StandsAt(s, token, i) { assert StandsAt(s[1..], token, i - 1); }
      if j: nat :| StandsAt(s[1..], token, j) { assert StandsAt(s, token, j + 1); }
    }
  }

  lemma Shifted(s: string, token: string, i: nat)
    requires s != ""
    ensures StandsAt(s, token, i + 1) == StandsAt(s[1..], token, i)
  {
    if i + 1 + |token| <= |s| { assert s[i + 1..i + 1 + |token|] == s[1..][i..i + |token|]; }
  }

  /** A line that is about something else changes nothing. */
  predicate Inert(name: string, value: string) {
    && (forall i :: 0 <= i < |name| ==> name[i] != ':')
    && AllLower(name) != "content-length" && AllLower(name) != "transfer-encoding"
    && AllLower(name) != "retry-after" && AllLower(name) != "connection"
  }

  lemma PrefixExactly(name: string, value: string, key: string)
    requires forall i :: 0 <= i < |name| ==> name[i] != ':'
    requires forall i :: 0 <= i < |key| ==> key[i] != ':'
    ensures HasPrefix(FieldLine(name, value), key + ":") ==> AllLower(name) == key
  {
    var line, k := FieldLine(name, value), |key|;
    assert line[|name|] == ':' && forall i :: 0 <= i < |name| ==> line[i] == name[i];
    if HasPrefix(line, key + ":") {
      var front := AllLower(line[..k + 1]);
      assert forall i :: 0 <= i <= k ==> front[i] == Lower(line[i]);
      assert front[k] == ':' && forall i :: 0 <= i < k ==> front[i] == key[i];
    }
  }

  lemma InertLine(f: Fields, name: string, value: string)
    requires f.Fields? && Inert(name, value)
    ensures ApplyLine(f, FieldLine(name, value)) == f
  {
    NameEnds(name, value);
    PrefixExactly(name, value, "content-length");
    PrefixExactly(name, value, "transfer-encoding");
    PrefixExactly(name, value, "retry-after");
    PrefixExactly(name, value, "connection");
    assert "content-length" + ":" == "content-length:" && "transfer-encoding" + ":" == "transfer-encoding:";
    assert "retry-after" + ":" == "retry-after:" && "connection" + ":" == "connection:";
  }

  // ── whole heads ─────────────────────────────────────────────────────────────

  /** A status line of HTTP/1.x with its three digits. */
  function StatusLine(minor: char, a: nat, b: nat, c: nat, reason: string): string
    requires a < 10 && b < 10 && c < 10
  {
    "HTTP/1." + ([minor, ' ', Digit(a), Digit(b), Digit(c)] + reason)
  }

  lemma ThreeDigits(a: nat, b: nat, c: nat)
    requires a < 10 && b < 10 && c < 10
    ensures FromCharsSigned([Digit(a), Digit(b), Digit(c)]) == Some(100 * a + 10 * b + c)
  {
    var s := [Digit(a), Digit(b), Digit(c)];
    assert AllDigits(s, 10);
    AllPrefix(s, 10);
    assert s[..2] == [Digit(a), Digit(b)] && s[..2][..1] == [Digit(a)] && s[..2][..1][..0] == "";
    assert ValueOf(s[..2][..1], 10) == a && ValueOf(s[..2], 10) == 10 * a + b;
    assert s[0] != '-';
  }

  /** Is there never a body after this status? */
  predicate Bodyless(code: int) { code == 204 || code == 304 || 100 <= code <= 199 }

  /** The status is the three digits; HTTP/1.0 closes by default; what the lines say decides the body. */
  lemma HeadMeans(minor: char, a: nat, b: nat, c: nat, reason: string, lines: seq<string>)
    requires a < 10 && b < 10 && c < 10
    ensures var code := 100 * a + 10 * b + c;
            var f := ApplyLines(Fields(false, None, 0, minor != '0'), lines);
            var h := Interpret(StatusLine(minor, a, b, c, reason), lines);
            && (f.Bad? ==> h.BadHead?)
            && (f.Fields? ==>
                  && h.Head? && h.status == code && h.retryAfter == f.retryAfter
                  && (Bodyless(code) ==> h.framing == NoBody)
                  && (!Bodyless(code) && f.chunked ==> h.framing == Chunked)
                  && (!Bodyless(code) && !f.chunked && f.length.Some? ==> h.framing == Length(f.length.value))
                  && (!Bodyless(code) && !f.chunked && f.length.None? ==> h.framing == ToClose)
                  && (h.keepAlive <==> f.keepAlive && !h.framing.ToClose?))
  {
    var s := StatusLine(minor, a, b, c, reason);
    assert s[9..12] == [Digit(a), Digit(b), Digit(c)];
    assert "HTTP/1." <= s && (("HTTP/1.0" <= s) <==> minor == '0') by {
      assert s[..7] == "HTTP/1." && s[7] == minor;
      assert "HTTP/1.0" == "HTTP/1." + "0";
      if minor == '0' { assert s[..8] == "HTTP/1.0"; }
    }
    ThreeDigits(a, b, c);
  }

  lemma {:induction false} LinesInTurn(f: Fields, lines: seq<string>, more: seq<string>)
    ensures ApplyLines(f, lines + more) == ApplyLines(ApplyLines(f, lines), more)
    decreases |lines|
  {
    if f.Fields? && lines != [] {
      assert (lines + more)[0] == lines[0] && (lines + more)[1..] == lines[1..] + more;
      LinesInTurn(ApplyLine(f, lines[0]), lines[1..], more);
    } else if lines == [] {
      assert lines + more == more;
    }
  }

  /** Lines that are all about something else. */
  ghost predicate AllInert(lines: seq<string>) {
    forall i :: 0 <= i < |lines| ==> IsInert(lines[i])
  }

  ghost predicate IsInert(line: string) { exists name, value :: Inert(name, value) && line == FieldLine(name, value) }

  lemma {:induction false} InertLines(f: Fields, lines: seq<string>)
    requires AllInert(lines)
    ensures ApplyLines(f, lines) == f
    decreases |lines|
  {
    if f.Fields? && lines != [] {
      assert IsInert(lines[0]);
      var name, value :| Inert(name, value) && lines[0] == FieldLine(name, value);
      InertLine(f, name, value);
      InertLines(f, lines[1..]);
    }
  }

  lemma OneTelling(f: Fields, before: seq<string>, line: string, after: seq<string>)
    requires f.Fields? && AllInert(before) && AllInert(after)
    ensures ApplyLines(f, before + ([line] + after)) == ApplyLine(f, line)
  {
    LinesInTurn(f, before, [line] + after);
    InertLines(f, before);
    assert ([line] + after)[0] == line && ([line] + after)[1..] == after;
    InertLines(ApplyLine(f, line), after);
  }

  /** A head with a content length among other lines, the length in decimal, in any case and with any blanks. */
  lemma SizedHead(minor: char, a: nat, b: nat, c: nat, reason: string, before: seq<string>, name: string, left: string,
                  n: nat, right: string, after: seq<string>)
    requires a < 10 && b < 10 && c < 10 && !Bodyless(100 * a + 10 * b + c) && n < WORD
    requires AllInert(before) && AllInert(after) && IsNamed(name, "content-length") && Blanks(left) && Blanks(right)
    ensures Interpret(StatusLine(minor, a, b, c, reason),
                      before + ([FieldLine(name, left + (DecimalOf(n) + right))] + after))
         == Head(100 * a + 10 * b + c, minor != '0', 0, Length(n))
  {
    var f, line := Fields(false, None, 0, minor != '0'), FieldLine(name, left + (DecimalOf(n) + right));
    DecimalRead(n);
    ContentLengthLine(f, name, left, DecimalOf(n), right);
    OneTelling(f, before, line, after);
    HeadMeans(minor, a, b, c, reason, before + ([line] + after));
  }

  /** A response written with its length in decimal is recovered, body and all, however its head is spelled. */
  lemma WrittenResponse(minor: char, a: nat, b: nat, c: nat, reason: string, before: seq<string>, name: string,
                        left: string, body: string, right: string, after: seq<string>, tail: string)
    requires a < 10 && b < 10 && c < 10 && !Bodyless(100 * a + 10 * b + c) && |body| < WORD
    requires AllInert(before) && AllInert(after) && IsNamed(name, "content-length") && Blanks(left) && Blanks(right)
    requires IsHead(StatusLine(minor, a, b, c, reason),
                    before + ([FieldLine(name, left + (DecimalOf(|body|) + right))] + after))
    ensures var lines := before + ([FieldLine(name, left + (DecimalOf(|body|) + right))] + after);
            var s := HeadText(StatusLine(minor, a, b, c, reason), lines) + (body + tail);
            var goal := Left(Parser(Done, Head(100 * a + 10 * b + c, minor != '0', 0, Length(|body|)), body), tail);
            && Feed(Http(), Fresh(), s) == goal
            && ((forall parts: seq<string> | Joined(parts) == s :: FeedEach(Http(), Fresh(), parts) == goal)
                <==> |HeadText(StatusLine(minor, a, b, c, reason), lines)| <= 65537)
  {
    var lines := before + ([FieldLine(name, left + (DecimalOf(|body|) + right))] + after);
    SizedHead(minor, a, b, c, reason, before, name, left, |body|, right, after);
    SizedResponse(StatusLine(minor, a, b, c, reason), lines, body, tail);
  }

  /** A chunked response is chunked whatever content length is said before or after. */
  lemma ChunkedHead(minor: char, a: nat, b: nat, c: nat, reason: string, length: Option<nat>, name: string,
                    left: string,
                    v: string, right: string, i: nat, lengthFirst: bool)
    requires a < 10 && b < 10 && c < 10 && !Bodyless(100 * a + 10 * b + c) && (length.Some? ==> length.value < WORD)
    requires IsNamed(name, "transfer-encoding") && Blanks(left) && Blanks(right)
    requires v != "" && !Blank(v[0]) && !Blank(v[|v| - 1]) && StandsAt(AllLower(v), "chunked", i)
    ensures var te := [FieldLine(name, left + (v + right))];
            var cl := if length.Some? then [FieldLine("Content-Length", DecimalOf(length.value))] else [];
            Interpret(StatusLine(minor, a, b, c, reason), if lengthFirst then cl + te else te + cl)
              == Head(100 * a + 10 * b + c, minor != '0', 0, Chunked)
  {
    var f := Fields(false, None, 0, minor != '0');
    var te := [FieldLine(name, left + (v + right))];
    var cl := if length.Some? then [FieldLine("Content-Length", DecimalOf(length.value))] else [];
    var lines := if lengthFirst then cl + te else te + cl;
    LengthSaid(f, length);
    LengthSaid(f.(chunked := true), length);
    ChunkedSaid(f, name, left, v, right, i);
    ChunkedSaid(f.(length := length), name, left, v, right, i);
    LinesInTurn(f, cl, te);
    LinesInTurn(f, te, cl);
    HeadMeans(minor, a, b, c, reason, lines);
  }

  lemma LengthSaid(f: Fields, length: Option<nat>)
    requires f.Fields? && f.length == None && (length.Some? ==> length.value < WORD)
    ensures ApplyLines(f, if length.Some? then [FieldLine("Content-Length", DecimalOf(length.value))] else [])
         == f.(length := length)
  {
    if length.Some? {
      var d := DecimalOf(length.value);
      DecimalRead(length.value);
      assert AllLower("Content-Length") == "content-length";
      ContentLengthLine(f, "Content-Length", "", d, "");
      assert "" + (d + "") == d;
      assert [FieldLine("Content-Length", d)][1..] == [];
    }
  }

  lemma ChunkedSaid(f: Fields, name: string, left: string, v: string, right: string, i: nat)
    requires f.Fields? && IsNamed(name, "transfer-encoding") && Blanks(left) && Blanks(right)
    requires v != "" && !Blank(v[0]) && !Blank(v[|v| - 1]) && StandsAt(AllLower(v), "chunked", i)
    ensures ApplyLines(f, [FieldLine(name, left + (v + right))]) == f.(chunked := true)
  {
    ChunkedLine(f, name, left, v, right, i);
    assert [FieldLine(name, left + (v + right))][1..] == [];
  }
}
