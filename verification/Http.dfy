/** The HTTP parsing the server does by hand: request line, header end, content length, route prefix. */
module Http {
  import opened Bytes
  import opened Decimal
  import Utf8

  const CR: byte := 13
  const LF: byte := 10
  const SPACE: byte := 32
  const SLASH: byte := 47
  const BLANK_LINE: seq<byte> := [13, 10, 13, 10]
  const UPDATE: seq<byte> := [47, 117, 112, 100, 97, 116, 101]
  const CONTENT_LENGTH: seq<byte> := [99, 111, 110, 116, 101, 110, 116, 45, 108, 101, 110, 103, 116, 104, 58, 32]

  // ---- searching ----

  /** The first index at or after i where s stands in t. */
  function FirstAt(t: seq<byte>, i: nat, s: seq<byte>): (r: Option<nat>)
    decreases |t| - i
  {
    if i > |t| then None else if At(t, i, s) then Some(i) else FirstAt(t, i + 1, s)
  }

  lemma {:induction false} FirstIsFirst(t: seq<byte>, i: nat, s: seq<byte>, p: nat)
    requires i <= p && forall q :: i <= q < p ==> !At(t, q, s)
    ensures FirstAt(t, i, s) == Some(p) <==> At(t, p, s)
    ensures p > |t| ==> FirstAt(t, i, s) == None
    decreases p - i
  {
    if i < p && i <= |t| {
      FirstIsFirst(t, i + 1, s, p);
    } else if i == p <= |t| && !At(t, p, s) {
      FirstBeyond(t, i + 1, s);
    }
  }

  lemma {:induction false} FirstBeyond(t: seq<byte>, i: nat, s: seq<byte>)
    ensures FirstAt(t, i, s).Some? ==> i <= FirstAt(t, i, s).value && At(t, FirstAt(t, i, s).value, s)
    ensures forall q :: i <= q && (FirstAt(t, i, s).Some? ==> q < FirstAt(t, i, s).value) ==> !At(t, q, s)
    decreases |t| - i
  {
    if i <= |t| && !At(t, i, s) {
      FirstBeyond(t, i + 1, s);
    }
  }

  /** The end of the headers: where the first blank line starts. */
  function HeaderEnd(buf: seq<byte>): (r: Option<nat>)
    ensures r.Some? ==> r.value + 4 <= |buf|
  {
    FirstBeyond(buf, 0, BLANK_LINE);
    FirstAt(buf, 0, BLANK_LINE)
  }

  method FindHeaderEnd(buf: seq<byte>) returns (r: Option<nat>)
    ensures r == HeaderEnd(buf)
  {
    var i := 0;
    while i + 4 <= |buf|
      invariant i <= |buf| && FirstAt(buf, i, BLANK_LINE) == FirstAt(buf, 0, BLANK_LINE)
    {
      if buf[i..i + 4] == BLANK_LINE {
        return Some(i);
      }
      i := i + 1;
    }
    FirstIsFirst(buf, i, BLANK_LINE, |buf| + 1);
    r := None;
  }

  /** More bytes do not move the end of the headers, and fewer do not show it. */
  lemma HeaderEndStable(stream: seq<byte>, n: nat)
    requires n <= |stream| && HeaderEnd(stream).Some?
    ensures HeaderEnd(stream[..n]) == if n >= HeaderEnd(stream).value + 4 then HeaderEnd(stream) else None
  {
    var buf, p := stream[..n], HeaderEnd(stream).value;
    FirstBeyond(stream, 0, BLANK_LINE);
    forall q: nat | At(buf, q, BLANK_LINE) ensures At(stream, q, BLANK_LINE) && q + 4 <= n {
      assert buf[q..q + 4] == stream[q..q + 4];
    }
    if n >= p + 4 {
      assert buf[p..p + 4] == stream[p..p + 4];
      FirstIsFirst(buf, 0, BLANK_LINE, p);
    } else {
      FirstIsFirst(buf, 0, BLANK_LINE, |buf| + 1);
    }
  }

  // ---- the request line ----

  datatype Request = Request(verb: seq<byte>, path: seq<byte>, body: seq<byte>)

  function FirstLine(data: seq<byte>): (s: seq<byte>) {
    data[..IndexOf(data, CR)]
  }

  /** Verb and path are the first two words of the first line, the body what follows the first blank line. */
  function ParseHttp(data: seq<byte>): (r: Request) {
    var line := FirstLine(data);
    var i := IndexOf(line, SPACE);
    var rest := if i < |line| then line[i + 1..] else [];
    var path := if i < |line| then rest[..IndexOf(rest, SPACE)] else [SLASH];
    var end := HeaderEnd(data);
    Request(line[..i], path, if end.Some? then data[end.value + 4..] else [])
  }

  lemma ThreeWords(verb: seq<byte>, path: seq<byte>, version: seq<byte>, line: seq<byte>)
    requires SPACE !in verb && SPACE !in path && line == verb + [SPACE] + path + [SPACE] + version
    ensures IndexOf(line, SPACE) == |verb| < |line| && line[..|verb|] == verb
    ensures var tail := line[|verb| + 1..]; IndexOf(tail, SPACE) == |path| && tail[..|path|] == path
  {
    IndexIs(line, SPACE, |verb|);
    var tail := line[|verb| + 1..];
    assert tail == path + [SPACE] + version;
    IndexIs(tail, SPACE, |path|);
  }

  lemma LineThenRest(line: seq<byte>, rest: seq<byte>)
    requires CR !in line && (rest == [] || rest[0] == CR)
    ensures FirstLine(line + rest) == line
  {
    IndexIs(line + rest, CR, |line|);
  }

  /** A request line as clients write it gives back its verb and path, whatever the headers and the body are. */
  lemma RequestLineRead(verb: seq<byte>, path: seq<byte>, version: seq<byte>, rest: seq<byte>)
    requires SPACE !in verb && SPACE !in path && CR !in verb && CR !in path && CR !in version
    requires rest == [] || rest[0] == CR
    ensures var r := ParseHttp(verb + [SPACE] + path + [SPACE] + version + rest);
      r.verb == verb && r.path == path
  {
    var line := verb + [SPACE] + path + [SPACE] + version;
    LineThenRest(line, rest);
    ThreeWords(verb, path, version, line);
  }

  /** A request line without a space is a verb alone, and asks for "/". */
  lemma VerbAlone(verb: seq<byte>, rest: seq<byte>)
    requires SPACE !in verb && CR !in verb && (rest == [] || rest[0] == CR)
    ensures var r := ParseHttp(verb + rest); r.verb == verb && r.path == Ascii("/")
  {
    IndexIs(verb + rest, CR, |verb|);
    assert FirstLine(verb + rest) == verb;
    IndexIs(verb, SPACE, |verb|);
    assert verb[..|verb|] == verb;
  }

  /** "/update/bbs" is for "/bbs"; "/update", "/update/" and anything else are for "/". */
  function RoutePrefix(path: seq<byte>): (p: seq<byte>) {
    if UPDATE <= path && path[|UPDATE|..] != [] then path[|UPDATE|..] else [SLASH]
  }

  // ---- the content length ----

  function Lower(c: byte): (r: byte) {
    if 65 <= c <= 90 then c + 32 else c
  }

  /** A header line that starts with "Content-Length: ", in any case, and has something after it. */
  predicate IsLengthLine(line: seq<byte>) {
    |line| > 16 && forall k :: 0 <= k < 16 ==> Lower(line[k]) == CONTENT_LENGTH[k]
  }

  const UPPER_LENGTH: seq<byte> := [67, 79, 78, 84, 69, 78, 84, 45, 76, 69, 78, 71, 84, 72, 58, 32]

  lemma LengthNames()
    ensures CONTENT_LENGTH == Ascii("content-length: ") && UPPER_LENGTH == Ascii("CONTENT-LENGTH: ")
  {
  }

  lemma EitherCase(c: byte, k: nat)
    requires k < 16
    ensures Lower(c) == CONTENT_LENGTH[k] <==> c == CONTENT_LENGTH[k] || c == UPPER_LENGTH[k]
  {
  }

  /** Each letter of the header's name may be of either case, and nothing else may differ. */
  lemma LengthLineIff(line: seq<byte>)
    ensures IsLengthLine(line) <==>
            |line| > 16 && forall k :: 0 <= k < 16 ==>
                             line[k] == Ascii("content-length: ")[k] || line[k] == Ascii("CONTENT-LENGTH: ")[k]
  {
    LengthNames();
    if |line| > 16 {
      forall k | 0 <= k < 16
        ensures Lower(line[k]) == CONTENT_LENGTH[k] <==> line[k] == CONTENT_LENGTH[k] || line[k] == UPPER_LENGTH[k]
      {
        EitherCase(line[k], k);
      }
    }
  }

  /** A line whose first sixteen bytes end inside a character: cutting it there stops the kernel. */
  predicate Breaks(line: seq<byte>) {
    |line| > 16 && Utf8.Tail(line[16])
  }

  /** The code points that count as white space (property White_Space of Unicode). */
  predicate IsWhite(c: nat) {
    || 9 <= c <= 13 || c == 0x20 || c == 0x85 || c == 0xA0 || c == 0x1680 || 0x2000 <= c <= 0x200A
    || c == 0x2028 || c == 0x2029 || c == 0x202F || c == 0x205F || c == 0x3000
  }

  /** Where the last character of s starts, four bytes before its end at most. */
  function LastStart(s: seq<byte>): (i: nat)
    requires s != []
    ensures i < |s|
  {
    var n := |s|;
    if !Utf8.Tail(s[n - 1]) || n == 1 then n - 1
    else if !Utf8.Tail(s[n - 2]) || n == 2 then n - 2
    else if !Utf8.Tail(s[n - 3]) || n == 3 then n - 3
    else n - 4
  }

  predicate WhiteChar(s: seq<byte>) {
    Utf8.CharLen(s) > 0 && IsWhite(Utf8.CodePoint(s))
  }

  function TrimLeft(s: seq<byte>): (r: seq<byte>) {
    if WhiteChar(s) then TrimLeft(s[Utf8.CharLen(s)..]) else s
  }

  function TrimRight(s: seq<byte>): (r: seq<byte>) {
    if s != [] && WhiteChar(s[LastStart(s)..]) then TrimRight(s[..LastStart(s)]) else s
  }

  /** A decimal 64-bit number, with an optional plus sign. */
  function ParseUsize(s: seq<byte>): (r: Option<nat>) {
    var digits := if s != [] && s[0] == 43 then s[1..] else s;
    if digits != [] && AllDigits(digits) && Value(digits) < TWO64 then Some(Value(digits)) else None
  }

  /** What looking for the length comes to: a number, none, or a kernel that stops. */
  datatype LengthParse = Length(value: nat) | NoLength | Stops

  function NumberIn(line: seq<byte>): (r: LengthParse)
    requires |line| > 16
  {
    var n := ParseUsize(TrimRight(TrimLeft(line[16..])));
    if n.Some? then Length(n.value) else NoLength
  }

  /** The text between line ends. */
  function Lines(text: seq<byte>): (lines: seq<seq<byte>>)
    ensures lines != []
    decreases |text|
  {
    var end := FirstAt(text, 0, [CR, LF]);
    FirstBeyond(text, 0, [CR, LF]);
    if end.None? then [text] else [text[..end.value]] + Lines(text[end.value + 2..])
  }

  /** The first length line decides, unless a line before it cannot be cut. */
  function LengthIn(lines: seq<seq<byte>>): (r: LengthParse) {
    if lines == [] then NoLength
    else if Breaks(lines[0]) then Stops
    else if IsLengthLine(lines[0]) then NumberIn(lines[0])
    else LengthIn(lines[1..])
  }

  function ContentLength(headers: seq<byte>): (r: LengthParse) {
    if Utf8.Valid(headers) then LengthIn(Lines(headers)) else NoLength
  }

  /** Lines joined by line ends. */
  function JoinLines(lines: seq<seq<byte>>): (s: seq<byte>) {
    if lines == [] then [] else if |lines| == 1 then lines[0] else lines[0] + [CR, LF] + JoinLines(lines[1..])
  }

  ghost predicate OneLine(line: seq<byte>) {
    forall q: nat :: !At(line, q, [CR, LF])
  }

  /** Every text is the join of lines in just one way. */
  lemma {:induction false} LinesJoined(lines: seq<seq<byte>>)
    requires lines != [] && forall i :: 0 <= i < |lines| ==> OneLine(lines[i])
    ensures Lines(JoinLines(lines)) == lines
    decreases |lines|
  {
    var text := JoinLines(lines);
    LineEnds(lines[0], text, |lines| > 1);
    if |lines| > 1 {
      assert text == lines[0] + [CR, LF] + JoinLines(lines[1..]);
      assert text[..|lines[0]|] == lines[0] && text[|lines[0]| + 2..] == JoinLines(lines[1..]);
      LinesJoined(lines[1..]);
      assert lines == [lines[0]] + lines[1..];
    }
  }

  lemma {:induction false} LinesOfText(text: seq<byte>)
    ensures JoinLines(Lines(text)) == text && forall i :: 0 <= i < |Lines(text)| ==> OneLine(Lines(text)[i])
    decreases |text|
  {
    var end := FirstAt(text, 0, [CR, LF]);
    FirstBeyond(text, 0, [CR, LF]);
    if end.Some? {
      var line, rest := text[..end.value], text[end.value + 2..];
      LinesOfText(rest);
      assert Lines(text) == [line] + Lines(rest) && Lines(text)[1..] == Lines(rest);
      assert text == line + [CR, LF] + rest by {
        assert text[end.value..end.value + 2] == [CR, LF];
      }
      forall q: nat ensures !At(line, q, [CR, LF]) {
        if q + 2 <= |line| {
          assert text[q..q + 2] == line[q..q + 2];
          assert !At(text, q, [CR, LF]);
        }
      }
    }
  }

  lemma LineEnds(line: seq<byte>, text: seq<byte>, more: bool)
    requires OneLine(line) && if more then line + [CR, LF] <= text else text == line
    ensures FirstAt(text, 0, [CR, LF]) == if more then Some(|line|) else None
  {
    if more {
      assert text[..|line| + 2] == line + [CR, LF];
      forall q: nat | q < |line| ensures !At(text, q, [CR, LF]) {
        if q + 2 <= |line| {
          assert line[q..q + 2] == text[q..q + 2];
          assert !At(line, q, [CR, LF]);
        } else {
          assert text[q..q + 2][1] == text[q + 1] == CR;
        }
      }
      assert text[|line|..|line| + 2] == text[..|line| + 2][|line|..];
      FirstIsFirst(text, 0, [CR, LF], |line|);
    } else {
      FirstIsFirst(text, 0, [CR, LF], |text| + 1);
    }
  }

  /** The length is the number in the first length line; a line before it that cannot be cut stops the kernel. */
  lemma {:induction false} LengthRead(lines: seq<seq<byte>>, k: nat)
    requires k <= |lines| && forall i :: 0 <= i < k ==> !IsLengthLine(lines[i]) && !Breaks(lines[i])
    requires k < |lines| ==> IsLengthLine(lines[k]) || Breaks(lines[k])
    ensures LengthIn(lines) == if k == |lines| then NoLength else if Breaks(lines[k]) then Stops else NumberIn(lines[k])
    decreases |lines|
  {
    if k > 0 {
      LengthRead(lines[1..], k - 1);
    }
  }

  /** The kernel stops exactly when a line that cannot be cut has no length line before it. */
  lemma {:induction false} StopsIff(lines: seq<seq<byte>>)
    ensures LengthIn(lines) == Stops <==>
            exists k :: 0 <= k < |lines| && Breaks(lines[k]) && forall i :: 0 <= i < k ==> !IsLengthLine(lines[i])
    decreases |lines|
  {
    if lines != [] && !Breaks(lines[0]) {
      if IsLengthLine(lines[0]) {
      } else {
        StopsIff(lines[1..]);
        if LengthIn(lines) == Stops {
          var k :| 0 <= k < |lines[1..]| && Breaks(lines[1..][k])
                   && forall i :: 0 <= i < k ==> !IsLengthLine(lines[1..][i]);
          assert Breaks(lines[k + 1]);
          forall i | 0 <= i < k + 1 ensures !IsLengthLine(lines[i]) {
            if i > 0 {
              assert lines[i] == lines[1..][i - 1];
            }
          }
        }
        if k :| 0 <= k < |lines| && Breaks(lines[k]) && forall i :: 0 <= i < k ==> !IsLengthLine(lines[i]) {
          assert lines[1..][k - 1] == lines[k];
        }
      }
    }
  }

  // ---- white space around a number ----

  /** Code points that are white space. */
  predicate Whites(ws: seq<nat>) {
    forall i :: 0 <= i < |ws| ==> IsWhite(ws[i])
  }

  /** A byte that is a character by itself, and not white space. */
  predicate Graphic(b: byte) {
    32 < b < 127
  }

  lemma NotWhite(s: seq<byte>)
    requires s != [] && Graphic(s[0])
    ensures !WhiteChar(s)
  {
  }

  lemma WhiteStarts(c: nat, rest: seq<byte>)
    requires IsWhite(c)
    ensures var s := Utf8.Encode(c) + rest;
      WhiteChar(s) && Utf8.CharLen(s) == |Utf8.Encode(c)| && s[Utf8.CharLen(s)..] == rest
  {
    Utf8.EncodeReads(c, rest);
  }

  lemma {:induction false} WhiteLeft(ws: seq<nat>, s: seq<byte>)
    requires Whites(ws) && s != [] && Graphic(s[0])
    ensures TrimLeft(Utf8.Encoded(ws) + s) == s
    decreases |ws|
  {
    if ws == [] {
      assert Utf8.Encoded(ws) + s == s;
      NotWhite(s);
    } else {
      var rest := Utf8.Encoded(ws[1..]) + s;
      Assoc(Utf8.Encode(ws[0]), Utf8.Encoded(ws[1..]), s);
      WhiteStarts(ws[0], rest);
      WhiteLeft(ws[1..], s);
    }
  }

  /** Where the last character starts when it is white space. */
  lemma WhiteEnds(t: seq<byte>, c: nat)
    requires IsWhite(c)
    ensures LastStart(t + Utf8.Encode(c)) == |t|
  {
    var x := Utf8.Encode(c);
    assert |x| <= 3 && !Utf8.Tail(x[0]) && forall i :: 1 <= i < |x| ==> Utf8.Tail(x[i]);
    assert forall i :: 0 <= i < |x| ==> (t + x)[|t| + i] == x[i];
  }

  lemma {:induction false} EncodedSnoc(cs: seq<nat>, c: nat)
    requires Utf8.CodePoints(cs) && c < 0x11_0000
    ensures Utf8.Encoded(cs + [c]) == Utf8.Encoded(cs) + Utf8.Encode(c)
    decreases |cs|
  {
    if cs == [] {
      assert [c][1..] == [] && cs + [c] == [c];
      assert Utf8.Encode(c) + [] == [] + Utf8.Encode(c);
    } else {
      assert (cs + [c])[1..] == cs[1..] + [c];
      EncodedSnoc(cs[1..], c);
      Assoc(Utf8.Encode(cs[0]), Utf8.Encoded(cs[1..]), Utf8.Encode(c));
    }
  }

  lemma OneWhiteOff(t: seq<byte>, c: nat)
    requires IsWhite(c)
    ensures TrimRight(t + Utf8.Encode(c)) == TrimRight(t)
  {
    var s := t + Utf8.Encode(c);
    WhiteEnds(t, c);
    WhiteStarts(c, []);
    assert Utf8.Encode(c) + [] == Utf8.Encode(c) && s[|t|..] == Utf8.Encode(c) && s[..|t|] == t;
  }

  lemma NothingOff(s: seq<byte>)
    requires s != [] && Graphic(s[|s| - 1])
    ensures TrimRight(s) == s
  {
    assert LastStart(s) == |s| - 1;
    NotWhite(s[|s| - 1..]);
  }

  lemma {:induction false} WhiteRight(s: seq<byte>, ws: seq<nat>)
    requires Whites(ws) && s != [] && Graphic(s[|s| - 1])
    ensures TrimRight(s + Utf8.Encoded(ws)) == s
    decreases |ws|
  {
    if ws == [] {
      assert s + Utf8.Encoded(ws) == s;
      NothingOff(s);
    } else {
      var init, c := ws[..|ws| - 1], ws[|ws| - 1];
      assert ws == init + [c];
      EncodedSnoc(init, c);
      Assoc(s, Utf8.Encoded(init), Utf8.Encode(c));
      OneWhiteOff(s + Utf8.Encoded(init), c);
      WhiteRight(s, init);
    }
  }

  /** White space of any kind around a number is ignored. */
  lemma Trimmed(left: seq<nat>, s: seq<byte>, right: seq<nat>)
    requires Whites(left) && Whites(right) && s != [] && Graphic(s[0]) && Graphic(s[|s| - 1])
    ensures TrimRight(TrimLeft(Utf8.Encoded(left) + s + Utf8.Encoded(right))) == s
  {
    var t := s + Utf8.Encoded(right);
    Assoc(Utf8.Encoded(left), s, Utf8.Encoded(right));
    assert t[0] == s[0];
    WhiteLeft(left, t);
    WhiteRight(s, right);
  }

  // ---- where a line cannot be cut ----

  /** No character ends inside another. */
  lemma CharInside(s: seq<byte>, n: nat)
    requires 0 < n < Utf8.CharLen(s)
    ensures !Utf8.Valid(s[..n]) && Utf8.Tail(s[n])
  {
  }

  /** A first character is told by its own bytes. */
  lemma CharFront(s: seq<byte>, n: nat, k: nat)
    requires 0 < k == Utf8.CharLen(s) <= n <= |s|
    ensures Utf8.CharLen(s[..n]) == k && s[..n][k..] == s[k..][..n - k]
    ensures Utf8.Valid(s[..n]) <==> Utf8.Valid(s[k..][..n - k])
  {
    assert forall i :: 0 <= i < k ==> s[..n][i] == s[i];
  }

  lemma CharStart(s: seq<byte>)
    requires Utf8.CharLen(s) > 0
    ensures !Utf8.Tail(s[0])
  {
  }

  /** A text can be cut in two texts just where a character starts. */
  lemma {:induction false} FrontValid(s: seq<byte>, n: nat)
    requires Utf8.Valid(s) && n < |s|
    ensures Utf8.Valid(s[..n]) <==> !Utf8.Tail(s[n])
    decreases |s|
  {
    var k := Utf8.CharLen(s);
    if n == 0 {
      assert s[..0] == [];
      CharStart(s);
    } else if n < k {
      CharInside(s, n);
    } else {
      CharFront(s, n, k);
      FrontValid(s[k..], n - k);
    }
  }

  /** A line of text cannot be cut at its sixteenth byte exactly when what would be cut off is no text. */
  lemma BreaksIff(line: seq<byte>)
    requires Utf8.Valid(line) && |line| > 16
    ensures Breaks(line) <==> !Utf8.Valid(line[..16])
  {
    FrontValid(line, 16);
  }
}
