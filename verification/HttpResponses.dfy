/** Whole HTTP/1.1 responses, cut into reads in any way, come out of the parser as they were sent. */
module HttpResponses {
  import opened Basics
  import opened HttpMachine
  import opened HttpText
  import H = HexText

  /** A chunk as section 7.1 of RFC 9112 writes it. */
  datatype Piece = Piece(digits: string, extension: string, data: string)

  predicate IsPiece(p: Piece) {
    && p.data != "" && |p.data| < 0x1_0000_0000_0000_0000
    && IsSize(p.digits, p.extension, |p.data|)
  }

  predicate IsSize(digits: string, extension: string, n: nat) {
    && digits != "" && AllDigits(digits, 16) && ValueOf(digits, 16) == n
    && IsExtension(extension) && NoNewline(extension) && |digits| + |extension| < LINE_LIMIT
  }

  predicate NoNewline(s: string) { forall i :: 0 <= i < |s| ==> s[i] != '\n' }

  function SizeText(digits: string, extension: string): string { digits + extension + "\r" }

  function ToChunk(p: Piece): Chunk<char> { Chunk(SizeText(p.digits, p.extension), p.data, CRLF) }

  function ToChunks(ps: seq<Piece>): seq<Chunk<char>> {
    if ps == [] then [] else [ToChunk(ps[0])] + ToChunks(ps[1..])
  }

  function PieceData(ps: seq<Piece>): string {
    if ps == [] then "" else ps[0].data + PieceData(ps[1..])
  }

  predicate IsTrailer(line: string) { NoNewline(line) && |line| < LINE_LIMIT && Trim(line + "\r") != "" }

  function ToTrailers(lines: seq<string>): seq<string> {
    if lines == [] then [] else [lines[0] + "\r"] + ToTrailers(lines[1..])
  }

  datatype Body = Body(pieces: seq<Piece>, zeros: string, extension: string, trailers: seq<string>)

  predicate IsBody(b: Body) {
    && (forall i :: 0 <= i < |b.pieces| ==> IsPiece(b.pieces[i]))
    && IsSize(b.zeros, b.extension, 0)
    && (forall i :: 0 <= i < |b.trailers| ==> IsTrailer(b.trailers[i]))
  }

  function ToChunkedBody(b: Body): ChunkedBody<char> {
    ChunkedBody(ToChunks(b.pieces), SizeText(b.zeros, b.extension), ToTrailers(b.trailers), "\r")
  }

  /** The chunked body on the wire. */
  function BodyText(b: Body): string { BodyWire(ToChunkedBody(b), '\n') }

  lemma SizeIsLine(digits: string, extension: string, n: nat)
    requires IsSize(digits, extension, n) && n < 0x1_0000_0000_0000_0000
    ensures IsLine(Http(), SizeText(digits, extension)) && Http().size(SizeText(digits, extension)) == Some(n)
  {
    SizeLineRead(digits, extension);
    var line := SizeText(digits, extension);
    forall i | 0 <= i < |line| ensures line[i] != '\n' {
      if i < |digits| {
        assert line[i] == digits[i] && DigitOf(digits[i]) < 16;
      } else if i < |digits| + |extension| {
        assert line[i] == extension[i - |digits|];
      }
    }
  }

  lemma {:induction false} PiecesAreChunks(ps: seq<Piece>)
    requires forall i :: 0 <= i < |ps| ==> IsPiece(ps[i])
    ensures AllChunks(Http(), ToChunks(ps))
    ensures DataOf(ToChunks(ps)) == PieceData(ps)
  {
    if ps != [] {
      SizeIsLine(ps[0].digits, ps[0].extension, |ps[0].data|);
      assert IsChunk(Http(), ToChunk(ps[0]));
      PiecesAreChunks(ps[1..]);
      assert ToChunks(ps)[1..] == ToChunks(ps[1..]);
    }
  }

  lemma {:induction false} TrailersAreLines(lines: seq<string>)
    requires forall i :: 0 <= i < |lines| ==> IsTrailer(lines[i])
    ensures AllTrailers(Http(), ToTrailers(lines))
  {
    if lines != [] {
      assert IsLine(Http(), lines[0] + "\r") && !Http().blank(lines[0] + "\r");
      TrailersAreLines(lines[1..]);
      assert ToTrailers(lines)[1..] == ToTrailers(lines[1..]);
    }
  }

  lemma BodyIsChunked(b: Body)
    requires IsBody(b)
    ensures IsChunkedBody(Http(), ToChunkedBody(b)) && DataOf(ToChunkedBody(b).chunks) == PieceData(b.pieces)
  {
    PiecesAreChunks(b.pieces);
    SizeIsLine(b.zeros, b.extension, 0);
    TrailersAreLines(b.trailers);
    BlankLine();
  }

  lemma BlankLine()
    ensures IsLine(Http(), "\r") && Http().blank("\r")
  {
    assert TrimBack("") == "" && "\r"[..0] == "";
    assert TrimFront("\r") == "\r" && TrimBack("\r") == TrimBack("");
  }

  // ── a head and what follows it ──────────────────────────────────────────────

  /** A head whose blank line is its only one, and what its response comes to one byte at a time. */
  ghost predicate Comes(head: string, t: string, goal: Left<char>) {
    && |head| > 0 && EndsHead(head) && (forall k :: 0 <= k < |head| ==> !EndsHead(head[..k]))
    && Run(Http(), EndHead(Http(), Fresh(), head), t) == goal && !goal.parser.phase.Failed?
  }

  lemma OneRead(head: string, t: string, goal: Left<char>)
    requires Comes(head, t, goal)
    ensures Feed(Http(), Fresh(), head + t) == goal
    ensures Late(Http(), Fresh(), head + t) <==> |head| > HEAD_LIMIT + 1
  {
    var r := Http();
    forall k | 0 <= k < |head| ensures !r.ends(head[..k]) {}
    RunWholeHead(r, head, t);
    NotTooLong(r, head, t);
  }

  lemma NotTooLong<B>(r: Rules<B>, head: seq<B>, t: seq<B>)
    requires |head| > 0 && r.ends(head)
    ensures !TooLong(r, Fresh(), head + t)
  {
    assert [] + (head + t) == head + t && (head + t)[..|head|] == head;
  }

  /** A short head lets a response be cut into any reads. */
  lemma AnyCut(head: string, t: string, goal: Left<char>, parts: seq<string>)
    requires Comes(head, t, goal) && |head| <= HEAD_LIMIT + 1 && Joined(parts) == head + t
    ensures FeedEach(Http(), Fresh(), parts) == goal
  {
    OneRead(head, t, goal);
    CutsAgree(Http(), Fresh(), parts);
  }

  /** A longer head is read whole when it comes in one read and fails when the read ends inside it. */
  lemma LongHeadFails(head: string, t: string, goal: Left<char>)
    requires Comes(head, t, goal) && |head| > HEAD_LIMIT + 1
    ensures var s := head + t; var parts := [s[..HEAD_LIMIT + 1], s[HEAD_LIMIT + 1..]];
            && Late(Http(), Fresh(), s) && Feed(Http(), Fresh(), s) == goal
            && Joined(parts) == s && FeedEach(Http(), Fresh(), parts).parser.phase.Failed?
  {
    OneRead(head, t, goal);
    CutAtLimit(Http(), head + t);
  }

  /** Every way of reading a response gives the same exactly when its head is within the limit and a byte. */
  lemma CutsByHeadLength(head: string, t: string, goal: Left<char>)
    requires Comes(head, t, goal)
    ensures (forall parts: seq<string> | Joined(parts) == head + t :: FeedEach(Http(), Fresh(), parts) == goal)
       <==> |head| <= HEAD_LIMIT + 1
  {
    if |head| <= HEAD_LIMIT + 1 {
      forall parts: seq<string> | Joined(parts) == head + t ensures FeedEach(Http(), Fresh(), parts) == goal {
        AnyCut(head, t, goal, parts);
      }
    } else {
      LongHeadFails(head, t, goal);
    }
  }

  // ── responses ───────────────────────────────────────────────────────────────

  ghost predicate IsHead(statusLine: string, lines: seq<string>) {
    IsHeaderLine(statusLine) && AllHeaderLines(lines)
  }

  lemma HeadComes(statusLine: string, lines: seq<string>, t: string, goal: Left<char>)
    requires IsHead(statusLine, lines) && Interpret(statusLine, lines).Head? && !goal.parser.phase.Failed?
    requires var h := Interpret(statusLine, lines); Run(Http(), Parser(BodyPhase(h.framing), h, []), t) == goal
    ensures Comes(HeadText(statusLine, lines), t, goal)
  {
    HeadReadLineByLine(statusLine, lines);
    HeadEndsOnce(statusLine, lines);
  }

  /**
    * A chunked response with any sizes, extensions and trailers, cut into reads in every way: the body is the data of
    * its chunks and the bytes after the response are left for the next one, exactly when the head is short enough.
    */
  lemma ChunkedResponse(statusLine: string, lines: seq<string>, b: Body, tail: string)
    requires IsHead(statusLine, lines) && IsBody(b)
    requires var h := Interpret(statusLine, lines); h.Head? && h.framing == Chunked
    ensures var s := HeadText(statusLine, lines) + (BodyText(b) + tail);
            var goal := Left(Parser(Done, Interpret(statusLine, lines), PieceData(b.pieces)), tail);
            && Feed(Http(), Fresh(), s) == goal
            && ((forall parts: seq<string> | Joined(parts) == s :: FeedEach(Http(), Fresh(), parts) == goal)
                <==> |HeadText(statusLine, lines)| <= HEAD_LIMIT + 1)
  {
    var h := Interpret(statusLine, lines);
    var t, goal := BodyText(b) + tail, Left(Parser(Done, h, PieceData(b.pieces)), tail);
    ChunkedRuns(h, b, tail);
    HeadComes(statusLine, lines, t, goal);
    OneRead(HeadText(statusLine, lines), t, goal);
    CutsByHeadLength(HeadText(statusLine, lines), t, goal);
  }

  lemma ChunkedRuns(h: Head, b: Body, tail: string)
    requires IsBody(b)
    ensures Run(Http(), Parser(SizeLine([]), h, []), BodyText(b) + tail)
         == Left(Parser(Done, h, PieceData(b.pieces)), tail)
  {
    BodyIsChunked(b);
    ChunkedRecovered(Http(), Parser(SizeLine([]), h, []), ToChunkedBody(b), '\n', tail);
    assert [] + PieceData(b.pieces) == PieceData(b.pieces);
  }

  // ── chunks as a sender writes them ──────────────────────────────────────────

  /** A chunk with its size in the fewest digits and no extension. */
  function Plain(data: string): Piece { Piece(HexText(|data|), "", data) }

  function Plains(datas: seq<string>): (ps: seq<Piece>)
    ensures |ps| == |datas| && forall i :: 0 <= i < |ps| ==> ps[i] == Plain(datas[i])
  {
    if datas == [] then [] else [Plain(datas[0])] + Plains(datas[1..])
  }

  predicate IsData(data: string) { 0 < |data| < 0x1_0000_0000_0000_0000 }

  lemma PlainIsPiece(data: string)
    requires IsData(data)
    ensures IsPiece(Plain(data))
  {
    HexTextValue(|data|);
    H.Pow16At16();
    HexTextLength(|data|, 16);
  }

  lemma {:induction false} PlainsData(datas: seq<string>)
    ensures PieceData(Plains(datas)) == Joined(datas)
  {
    if datas != [] { PlainsData(datas[1..]); }
  }

  /** What is sent in chunks, with plain size lines, comes out as their concatenation. */
  lemma PlainResponse(statusLine: string, lines: seq<string>, datas: seq<string>, tail: string)
    requires IsHead(statusLine, lines) && forall i :: 0 <= i < |datas| ==> IsData(datas[i])
    requires var h := Interpret(statusLine, lines); h.Head? && h.framing == Chunked
    ensures var s := HeadText(statusLine, lines) + (BodyText(Body(Plains(datas), "0", "", [])) + tail);
            Feed(Http(), Fresh(), s) == Left(Parser(Done, Interpret(statusLine, lines), Joined(datas)), tail)
  {
    forall i | 0 <= i < |datas| ensures IsPiece(Plains(datas)[i]) { PlainIsPiece(datas[i]); }
    HexTextValue(0);
    assert HexText(0) == "0";
    PlainsData(datas);
    ChunkedResponse(statusLine, lines, Body(Plains(datas), "0", "", []), tail);
  }

  /** The body agrees with the head's framing: a content length, or no body at all. */
  predicate IsSized(h: Head, body: string) {
    h.Head? && (h.framing == Length(|body|) || (h.framing == NoBody && body == ""))
  }

  /** The same for a response with a content length, and for one that has no body. */
  lemma SizedResponse(statusLine: string, lines: seq<string>, body: string, tail: string)
    requires IsHead(statusLine, lines) && IsSized(Interpret(statusLine, lines), body)
    ensures var s := HeadText(statusLine, lines) + (body + tail);
            var goal := Left(Parser(Done, Interpret(statusLine, lines), body), tail);
            && Feed(Http(), Fresh(), s) == goal
            && ((forall parts: seq<string> | Joined(parts) == s :: FeedEach(Http(), Fresh(), parts) == goal)
                <==> |HeadText(statusLine, lines)| <= HEAD_LIMIT + 1)
  {
    var h := Interpret(statusLine, lines);
    var t, goal := body + tail, Left(Parser(Done, h, body), tail);
    SizedRuns(h, body, tail);
    HeadComes(statusLine, lines, t, goal);
    OneRead(HeadText(statusLine, lines), t, goal);
    CutsByHeadLength(HeadText(statusLine, lines), t, goal);
  }

  lemma SizedRuns(h: Head, body: string, tail: string)
    requires IsSized(h, body)
    ensures Run(Http(), Parser(BodyPhase(h.framing), h, []), body + tail) == Left(Parser(Done, h, body), tail)
  {
    if body == "" {
      assert body + tail == tail;
    } else {
      RunFixed(Http(), Parser(Fixed(|body|), h, []), body, tail);
      assert [] + body == body;
    }
  }

  /** Such responses exist: one header with a value of 64 KiB is enough. */
  lemma HugeHeader(v: string)
    requires |v| >= HEAD_LIMIT && forall i :: 0 <= i < |v| ==> v[i] != '\r'
    ensures var s := HeadText("HTTP/1.1 204 OK", ["x:" + v]);
            && Late(Http(), Fresh(), s)
            && Feed(Http(), Fresh(), s).parser.phase.Done?
            && FeedEach(Http(), Fresh(), [s[..HEAD_LIMIT + 1], s[HEAD_LIMIT + 1..]]).parser.phase.Failed?
  {
    var line := "x:" + v;
    assert line[0] == 'x' && line[1] == ':' && forall i :: 2 <= i < |line| ==> line[i] == v[i - 2];
    OtherHeader(Fields(false, None, 0, true), line);
    NoContent([line]);
    assert AllHeaderLines([line]) by { assert [line][1..] == []; }
    var h, head := Head(204, true, 0, NoBody), HeadText("HTTP/1.1 204 OK", [line]);
    HeadComes("HTTP/1.1 204 OK", [line], "", Left(Parser(Done, h, ""), ""));
    LongHeadFails(head, "", Left(Parser(Done, h, ""), ""));
    assert head + "" == head;
  }

  /** A header the parser does not know changes nothing. */
  lemma OtherHeader(f: Fields, line: string)
    requires f.Fields? && |line| >= 1 && line[0] == 'x'
    ensures ApplyLine(f, line) == f
  {
    NotPrefix(line, "content-length:");
    NotPrefix(line, "transfer-encoding:");
    NotPrefix(line, "retry-after:");
    NotPrefix(line, "connection:");
  }

  lemma NotPrefix(line: string, name: string)
    requires |line| >= 1 && line[0] == 'x' && |name| >= 1 && name[0] != 'x'
    ensures !HasPrefix(line, name)
  {
    if |name| <= |line| { assert AllLower(line[..|name|])[0] == 'x'; }
  }

  lemma NoContent(lines: seq<string>)
    requires |lines| == 1 && ApplyLine(Fields(false, None, 0, true), lines[0]) == Fields(false, None, 0, true)
    ensures Interpret("HTTP/1.1 204 OK", lines) == Head(204, true, 0, NoBody)
  {
    var statusLine := "HTTP/1.1 204 OK";
    assert statusLine[9..12] == "204";
    Code204();
    assert "HTTP/1." <= statusLine;
    assert !("HTTP/1.0" <= statusLine) by { assert statusLine[7] == '1' && "HTTP/1.0"[7] == '0'; }
    var f := Fields(false, None, 0, true);
    assert ApplyLines(f, lines) == ApplyLines(f, []) == f by { assert lines[1..] == []; }
  }

  lemma Code204()
    ensures FromCharsSigned("204") == Some(204)
  {
    assert "204"[1..] == "04" && "04"[1..] == "4" && "4"[1..] == "";
    assert DigitPrefix("4", 10) == "4" && DigitPrefix("04", 10) == "04" && DigitPrefix("204", 10) == "204";
    assert "204"[..2] == "20" && "20"[..1] == "2" && "2"[..0] == "";
    assert ValueOf("2", 10) == 2 && ValueOf("20", 10) == 20 && ValueOf("204", 10) == 204;
  }
}
