/** The JSON subset in which actions are sent: no spaces and no escapes. */
module JsonText {
  import opened WireTree
  import D = DecimalText

  function Quoted(s: string): string { "\"" + s + "\"" }

  function NumText(n: int): string { if n < 0 then "-" + D.IntText(-n) else D.IntText(n) }

  function Emit(token: Token): string {
    match token
    case Num(n) => NumText(n)
    case Bool(b) => if b then "true" else "false"
    case Str(s) => Quoted(s)
    case ArrHead(_) => ""
    case MapHead(_) => ""
  }

  predicate Plain(s: string) { forall i :: 0 <= i < |s| ==> s[i] != '"' && s[i] != '\\' }

  predicate Sendable(token: Token) {
    match token
    case Num(_) => true
    case Bool(_) => true
    case Str(s) => Plain(s)
    case _ => false
  }

  // ── reading ─────────────────────────────────────────────────────────────────

  /** Length of the text before the first quote or backslash. */
  function PlainRun(s: string): (k: nat)
    ensures k <= |s|
  {
    if s == "" || s[0] == '"' || s[0] == '\\' then 0 else 1 + PlainRun(s[1..])
  }

  function TakeNum(negative: bool, s: string): (g: Got<Token>)
    ensures g.Got? ==> |g.rest| < |s|
  {
    var d := D.DigitRun(s);
    if d == "" then Bad
    else
      var v: int := D.NumFrom(0, d);
      Got(Num(if negative then -v else v), s[|d|..])
  }

  function Next(s: string): (g: Got<Token>)
    ensures g.Got? ==> |g.rest| < |s|
  {
    if s == "" then Bad
    else if s[0] == '"' then
      var k := PlainRun(s[1..]);
      if 1 + k == |s| || s[1 + k] != '"' then Bad else Got(Str(s[1..1 + k]), s[2 + k..])
    else if "true" <= s then Got(Bool(true), s[4..])
    else if "false" <= s then Got(Bool(false), s[5..])
    else if s[0] == '-' then TakeNum(true, s[1..])
    else TakeNum(false, s)
  }

  // ── round trip ──────────────────────────────────────────────────────────────

  lemma {:induction false} PlainRunStops(s: string, rest: string)
    requires Plain(s) && rest != "" && rest[0] == '"'
    ensures PlainRun(s + rest) == |s|
  {
    if s == "" {
      assert s + rest == rest;
    } else {
      assert (s + rest)[1..] == s[1..] + rest;
      PlainRunStops(s[1..], rest);
    }
  }

  lemma StrRead(s: string, tail: string)
    requires Plain(s)
    ensures Next(Quoted(s) + tail) == Got(Str(s), tail)
  {
    var t := Quoted(s) + tail;
    assert t[1..] == s + ("\"" + tail);
    PlainRunStops(s, "\"" + tail);
    assert t[1 + |s|] == '"' && t[1..1 + |s|] == s && t[2 + |s|..] == tail;
  }

  lemma DigitsRead(n: nat, tail: string)
    requires Delimited(tail)
    ensures var v: int := n;
            TakeNum(false, D.IntText(n) + tail) == Got(Num(v), tail)
            && TakeNum(true, D.IntText(n) + tail) == Got(Num(-v), tail)
  {
    var d := D.IntText(n);
    D.DigitRunStops(d, tail);
    D.IntTextRead(n);
    assert (d + tail)[|d|..] == tail;
  }

  lemma NumRead(n: int, tail: string)
    requires Delimited(tail)
    ensures Next(NumText(n) + tail) == Got(Num(n), tail)
  {
    if n < 0 { NegativeRead(-n, tail); } else { NaturalRead(n, tail); }
  }

  lemma NaturalRead(n: nat, tail: string)
    requires Delimited(tail)
    ensures Next(D.IntText(n) + tail) == Got(Num(n), tail)
  {
    var d := D.IntText(n);
    DigitsRead(n, tail);
    assert (d + tail)[0] == d[0];
    StartsNum(d + tail);
  }

  lemma NegativeRead(n: nat, tail: string)
    requires Delimited(tail)
    ensures Next("-" + D.IntText(n) + tail) == Got(Num(0 - n), tail)
  {
    var s := D.IntText(n) + tail;
    DigitsRead(n, tail);
    assert "-" + D.IntText(n) + tail == "-" + s && ("-" + s)[1..] == s;
    StartsNum("-" + s);
  }

  lemma StartsNum(s: string)
    requires s != "" && (s[0] == '-' || D.IsDigit(s[0]))
    ensures Next(s) == if s[0] == '-' then TakeNum(true, s[1..]) else TakeNum(false, s)
  {
    assert "true"[0] == 't' && "false"[0] == 'f';
  }

  lemma BoolRead(b: bool, tail: string)
    ensures Next((if b then "true" else "false") + tail) == Got(Bool(b), tail)
  {
    if b {
      var t := "true" + tail;
      assert t[0] == 't' && "true" <= t && t[4..] == tail;
    } else {
      var t := "false" + tail;
      assert t[0] == 'f' && "true"[0] == 't' && "false" <= t && t[5..] == tail;
    }
  }

  lemma TokenRead(token: Token, tail: string)
    requires Sendable(token) && Delimited(tail)
    ensures Next(Emit(token) + tail) == Got(token, tail)
    ensures Emit(token) != "" && !Opens(Emit(token)) && !Closes(Emit(token))
  {
    match token
    case Num(n) => NumRead(n, tail);
    case Bool(b) => BoolRead(b, tail);
    case Str(s) => StrRead(s, tail);
  }

  lemma TextScans()
    ensures Shrinks(Next) && Scans(Next, Emit, Sendable)
  {
    forall token, tail | Sendable(token) && Delimited(tail) ensures Next(Emit(token) + tail) == Got(token, tail) {
      TokenRead(token, tail);
    }
    forall token | Sendable(token) ensures Emit(token) != "" && !Opens(Emit(token)) && !Closes(Emit(token)) {
      TokenRead(token, "");
    }
  }

  /** The text of a sendable tree reads back as the tree. */
  lemma TextRoundTrip(t: Tree)
    requires Printable(Sendable, t)
    ensures Shrinks(Next) && Scan(Next, Text(Emit, t)) == Got(t, "")
  {
    TextScans();
    ScanText(Next, Emit, Sendable, t, "");
    assert Text(Emit, t) + "" == Text(Emit, t);
  }

  /** The words of the text: truth values, strings in quotes, and decimal digits with a minus sign if negative. */
  lemma JsonWords(t: string, n: nat)
    ensures Emit(Bool(true)) == "true" && Emit(Bool(false)) == "false"
    ensures Emit(Str(t)) == ['"'] + t + ['"']
    ensures var s := Emit(Num(n)); s != "" && D.AllDigits(s) && D.NumFrom(0, s) == n
    ensures n > 0 ==> Emit(Num(0 - n)) == ['-'] + Emit(Num(n))
  {
    D.IntTextRead(n);
  }

  /** The marks around and between values: brackets and commas for a list, braces, colons and commas for a map. */
  lemma JsonMarks(k: string, x: Tree, l: string, y: Tree)
    ensures Text(Emit, Arr(Cons(x, Cons(y, Nil)))) == "[" + ((Text(Emit, x) + ("," + Text(Emit, y))) + "]")
    ensures Text(Emit, Map(Entry(k, x, Entry(l, y, End)))) == "{" + ((Pair(k, x) + ("," + Pair(l, y))) + "}")
  {
    assert TextItems(Emit, Cons(y, Nil)) == Text(Emit, y);
    assert TextEntries(Emit, Entry(l, y, End)) == Pair(l, y);
    Regroup(Quoted(k), ":", Text(Emit, x), "," + Pair(l, y));
  }

  function Pair(k: string, v: Tree): string { Quoted(k) + (":" + Text(Emit, v)) }

  lemma Regroup(a: string, b: string, c: string, d: string)
    ensures a + (b + (c + d)) == (a + (b + c)) + d
  {}
}
