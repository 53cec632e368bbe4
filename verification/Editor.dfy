/** The editor application: the file list as a JSON array, saving and reading documents. */
module Editor {
  import opened Bytes
  import opened LinearMemory
  import Json
  import opened VsockFiles
  import FileProtocol
  import FileServer
  import Http
  import Pages
  import Utf8

  const MEMORY := 393216
  const PATH := 131072
  const CONTENT := 131328
  const MAX_CONTENT := 32512
  const LIST := 196608
  const MAX_LIST := 32768
  const MAX_NAME := 240

  // Static data: address and length of each piece.
  const JSON_HEADER := 262144
  const JSON_LENGTH := 102
  const TEXT_HEADER := 262248
  const TEXT_LENGTH := 96
  const NOT_FOUND := 262346
  const NOT_FOUND_LENGTH := 80
  const BAD_REQUEST := 262427
  const BAD_LENGTH := 84
  const DOC := 262513

  /** doc/ */
  const DOC_TEXT: seq<byte> := [100, 111, 99, 47]

  const NEWLINE: byte := 10

  // ---- the list transducer ----

  /** The two flags of the loop. */
  datatype Pen = Pen(first: bool, inName: bool)

  function PenAfter(s: seq<byte>): (p: Pen) {
    if s == [] then Pen(true, false)
    else if s[|s| - 1] == NEWLINE then PenAfter(s[..|s| - 1]).(inName := false)
    else Pen(false, true)
  }

  /** What one byte of the list adds to the output. */
  function Emitted(p: Pen, b: byte): (s: seq<byte>)
    ensures |s| <= 3
  {
    if b == NEWLINE then (if p.inName then [34] else [])
    else if p.inName then [b]
    else if p.first then [34, b] else [44, 34, b]
  }

  function ListText(s: seq<byte>): (t: seq<byte>) {
    if s == [] then [] else ListText(s[..|s| - 1]) + Emitted(PenAfter(s[..|s| - 1]), s[|s| - 1])
  }

  function Closing(p: Pen): (s: seq<byte>) {
    if p.inName then [34] else []
  }

  /** The whole array. */
  function FilesText(s: seq<byte>): (t: seq<byte>) {
    [91] + ListText(s) + Closing(PenAfter(s)) + [93]
  }

  /** However the list looks, each of its bytes adds two bytes of output at most, and a newline leaves one over. */
  lemma {:induction false} ListBound(s: seq<byte>)
    ensures var p := PenAfter(s);
      if p.inName then |ListText(s)| <= 2 * |s| else if p.first then ListText(s) == [] else |ListText(s)| <= 2 * |s| - 1
    decreases |s|
  {
    if s != [] {
      ListBound(s[..|s| - 1]);
    }
  }

  // ---- the array is the list ----

  /** A name the transducer passes on as it is: text without newline, quote, backslash or control byte. */
  predicate PlainName(n: seq<byte>) {
    n != [] && Json.Plain(n)
  }

  /** The names a listing can hold. */
  predicate Names(ns: seq<seq<byte>>) {
    forall i :: 0 <= i < |ns| ==> ns[i] != [] && NEWLINE !in ns[i]
  }

  predicate PlainNames(ns: seq<seq<byte>>) {
    forall i :: 0 <= i < |ns| ==> PlainName(ns[i])
  }

  lemma ByteRead(s: seq<byte>, b: byte)
    ensures ListText(s + [b]) == ListText(s) + Emitted(PenAfter(s), b)
    ensures PenAfter(s + [b]) == if b == NEWLINE then PenAfter(s).(inName := false) else Pen(false, true)
  {
    assert (s + [b])[..|s|] == s && (s + [b])[|s|] == b;
  }

  /** What comes before a name: a quote and, unless the name is the first, a comma. */
  function Lead(p: Pen): (s: seq<byte>) {
    if p.first then [34] else [44, 34]
  }

  lemma FirstByte(s: seq<byte>, b: byte, t: seq<byte>)
    requires !PenAfter(s).inName && b != NEWLINE && t == s + [b]
    ensures PenAfter(t) == Pen(false, true) && ListText(t) == ListText(s) + Lead(PenAfter(s)) + [b]
  {
    ByteRead(s, b);
    assert Emitted(PenAfter(s), b) == Lead(PenAfter(s)) + [b];
    Assoc(ListText(s), Lead(PenAfter(s)), [b]);
  }

  lemma LaterByte(s: seq<byte>, b: byte, t: seq<byte>, before: seq<byte>, init: seq<byte>)
    requires PenAfter(s) == Pen(false, true) && b != NEWLINE && t == s + [b] && ListText(s) == before + init
    ensures PenAfter(t) == Pen(false, true) && ListText(t) == before + (init + [b])
  {
    ByteRead(s, b);
    Assoc(before, init, [b]);
  }

  /** A name is put out whole. */
  lemma {:induction false} NameRead(s: seq<byte>, n: seq<byte>, t: seq<byte>)
    requires !PenAfter(s).inName && n != [] && NEWLINE !in n && t == s + n
    ensures PenAfter(t) == Pen(false, true) && ListText(t) == ListText(s) + Lead(PenAfter(s)) + n
    decreases |n|
  {
    var init, b := n[..|n| - 1], n[|n| - 1];
    assert n == init + [b];
    if |n| == 1 {
      FirstByte(s, b, t);
    } else {
      NameRead(s, init, s + init);
      assert t == s + init + [b];
      LaterByte(s + init, b, t, ListText(s) + Lead(PenAfter(s)), init);
    }
  }

  lemma {:induction false} JoinedSnoc(ns: seq<seq<byte>>)
    requires |ns| > 1
    ensures FileServer.Joined(ns) == FileServer.Joined(ns[..|ns| - 1]) + [NEWLINE] + ns[|ns| - 1]
    decreases |ns|
  {
    var init := ns[..|ns| - 1];
    if |ns| == 2 {
      assert FileServer.Joined(ns[1..]) == ns[1] && FileServer.Joined(init) == ns[0];
    } else {
      JoinedSnoc(ns[1..]);
      assert ns[1..][..|ns| - 2] == init[1..] && init[0] == ns[0];
      var mid := FileServer.Joined(init[1..]);
      assert ns[0] + [10] + (mid + [NEWLINE] + ns[|ns| - 1]) == ns[0] + [10] + mid + [NEWLINE] + ns[|ns| - 1];
    }
  }

  /** A further name is put out after the quote that ends the one before and a comma. */
  lemma NextName(s: seq<byte>, n: seq<byte>, t: seq<byte>)
    requires PenAfter(s) == Pen(false, true) && n != [] && NEWLINE !in n && t == s + [NEWLINE] + n
    ensures PenAfter(t) == Pen(false, true) && ListText(t) == ListText(s) + [34] + [44, 34] + n
  {
    ByteRead(s, NEWLINE);
    NameRead(s + [NEWLINE], n, t);
  }

  lemma OneName(n: seq<byte>)
    requires PlainName(n)
    ensures PenAfter(n) == Pen(false, true) && ListText(n) + [34] == Json.Quoted(n)
  {
    EscapedPlain(n);
    FirstName(n);
  }

  /** The first name follows a quote. */
  lemma FirstName(n: seq<byte>)
    requires n != [] && NEWLINE !in n
    ensures PenAfter(n) == Pen(false, true) && ListText(n) == [34] + n
  {
    assert [] + n == n;
    NameRead([], n, n);
    assert [] + [34] == [34];
  }

  lemma OneMoreName(s: seq<byte>, n: seq<byte>, t: seq<byte>, listed: seq<byte>)
    requires PenAfter(s) == Pen(false, true) && PlainName(n) && t == s + [NEWLINE] + n && ListText(s) + [34] == listed
    ensures PenAfter(t) == Pen(false, true) && ListText(t) + [34] == listed + [44] + Json.Quoted(n)
  {
    EscapedPlain(n);
    NextName(s, n, t);
    QuotedEnd(ListText(s), n, listed);
  }

  /** The names joined with newlines come out quoted and separated by commas, but for the last quote. */
  lemma {:induction false} ListRead(ns: seq<seq<byte>>, s: seq<byte>)
    requires ns != [] && PlainNames(ns) && s == FileServer.Joined(ns)
    ensures PenAfter(s) == Pen(false, true) && ListText(s) + [34] == Json.Listed(ns)
    decreases |ns|
  {
    if |ns| == 1 {
      OneName(ns[0]);
    } else {
      var init := ns[..|ns| - 1];
      ListRead(init, FileServer.Joined(init));
      JoinedSnoc(ns);
      OneMoreName(FileServer.Joined(init), ns[|ns| - 1], s, Json.Listed(init));
    }
  }

  lemma QuotedEnd(l: seq<byte>, n: seq<byte>, listed: seq<byte>)
    requires l + [34] == listed
    ensures l + [34] + [44, 34] + n + [34] == listed + [44] + ([34] + n + [34])
  {
  }

  lemma {:induction false} EscapedPlain(n: seq<byte>)
    requires Json.Plain(n)
    ensures Json.Escaped(n) == n && Json.Clean(n) == n
    decreases |n|
  {
    if n != [] {
      EscapedPlain(n[..|n| - 1]);
      assert n == n[..|n| - 1] + [n[|n| - 1]];
    }
  }

  lemma ArrayOfNames(ns: seq<seq<byte>>, s: seq<byte>)
    requires PlainNames(ns) && s == FileServer.Joined(ns)
    ensures FilesText(s) == Json.ArrayText(ns)
  {
    if ns == [] {
      assert FilesText(s) == [91] + [] + [] + [93] == [91] + [] + [93];
    } else {
      ListRead(ns, s);
      Assoc([91], ListText(s), [34]);
    }
  }

  lemma CleanNames(ns: seq<seq<byte>>)
    requires PlainNames(ns)
    ensures Json.AllClean(ns) == ns
  {
    forall i | 0 <= i < |ns| ensures Json.Clean(ns[i]) == ns[i] {
      EscapedPlain(ns[i]);
    }
  }

  /** For the server's listing of plain names the response body is the JSON array that reads back
      as exactly those names. */
  lemma FilesAreNames(ns: seq<seq<byte>>, t: seq<byte>)
    requires PlainNames(ns) && t == FilesText(FileServer.Joined(ns))
    ensures Json.ArrayAt(t, 0) == Json.Strs(ns, |t|)
  {
    ArrayOfNames(ns, FileServer.Joined(ns));
    assert At(t, 0, Json.ArrayText(ns));
    Json.ArrayReads(t, 0, ns, |t|);
    CleanNames(ns);
  }

  // ---- exactly which names ----

  lemma {:induction false} WeightSnoc(ns: seq<seq<byte>>, n: seq<byte>)
    ensures Json.Weight(ns + [n]) == Json.Weight(ns) + |n| + 3
    decreases |ns|
  {
    if ns == [] {
      assert [n][1..] == [];
    } else {
      assert (ns + [n])[1..] == ns[1..] + [n];
      WeightSnoc(ns[1..], n);
    }
  }

  /** Whatever the names, their bytes, quotes and separators are all that is put out. */
  lemma {:induction false} ListLength(ns: seq<seq<byte>>, s: seq<byte>)
    requires ns != [] && Names(ns) && s == FileServer.Joined(ns)
    ensures PenAfter(s) == Pen(false, true) && |ListText(s)| + 2 == Json.Weight(ns)
    decreases |ns|
  {
    var init, n := ns[..|ns| - 1], ns[|ns| - 1];
    assert ns == init + [n];
    WeightSnoc(init, n);
    if init == [] {
      FirstName(n);
    } else {
      ListLength(init, FileServer.Joined(init));
      JoinedSnoc(ns);
      NextName(FileServer.Joined(init), n, s);
    }
  }

  /** A response that reads as the names has nothing escaped in it. */
  lemma ReadIsPlain(ns: seq<seq<byte>>, t: seq<byte>)
    requires ns != [] && Names(ns) && t == FilesText(FileServer.Joined(ns)) && Json.ArrayAt(t, 0) == Json.Strs(ns, |t|)
    ensures PlainNames(ns)
  {
    ListLength(ns, FileServer.Joined(ns));
    Json.StrsTake(t, 1);
  }

  /** The response to the server's listing: as much of it as the list area holds is printed. */
  function Response(ns: seq<seq<byte>>): (t: seq<byte>) {
    FilesText(Cut(FileServer.Joined(ns), MAX_LIST))
  }

  lemma {:induction false} ListGrows(s: seq<byte>, n: nat)
    requires n <= |s|
    ensures |ListText(s[..n])| <= |ListText(s)|
    decreases |s| - n
  {
    if n < |s| {
      assert s[..n + 1][..n] == s[..n];
      ListGrows(s, n + 1);
    } else {
      assert s[..n] == s;
    }
  }

  /** A list that ends with a name has more output than any part of it. */
  lemma PartIsShorter(s: seq<byte>, n: nat)
    requires n < |s| && s[|s| - 1] != NEWLINE
    ensures |ListText(s[..n])| < |ListText(s)|
  {
    var init := s[..|s| - 1];
    assert init[..n] == s[..n];
    ListGrows(init, n);
    assert |Emitted(PenAfter(init), s[|s| - 1])| >= 1;
  }

  lemma {:induction false} JoinedEnds(ns: seq<seq<byte>>)
    requires ns != [] && Names(ns)
    ensures var s := FileServer.Joined(ns); s != [] && s[|s| - 1] != NEWLINE
    decreases |ns|
  {
    if |ns| > 1 {
      JoinedEnds(ns[1..]);
    }
  }

  /** What is printed of a longer listing is too short to be the names listed. */
  lemma CutIsShort(ns: seq<seq<byte>>)
    requires Names(ns) && |FileServer.Joined(ns)| > MAX_LIST
    ensures |Response(ns)| < 1 + Json.Weight(ns)
  {
    var s := FileServer.Joined(ns);
    ListLength(ns, s);
    JoinedEnds(ns);
    PartIsShorter(s, MAX_LIST);
  }

  /**
   * The response to the server's listing is read back as the names listed exactly when each is plain and the listing
   * is no longer than the list area; any other makes it something else.
   */
  lemma FilesAreNamesIff(ns: seq<seq<byte>>)
    requires Names(ns)
    ensures var t := Response(ns);
      Json.ArrayAt(t, 0) == Json.Strs(ns, |t|) <==> PlainNames(ns) && |FileServer.Joined(ns)| <= 32768
  {
    var s, t := FileServer.Joined(ns), Response(ns);
    if |s| <= MAX_LIST {
      assert Cut(s, MAX_LIST) == s;
      if PlainNames(ns) {
        FilesAreNames(ns, t);
      } else if Json.ArrayAt(t, 0) == Json.Strs(ns, |t|) {
        ReadIsPlain(ns, t);
      }
    } else {
      CutIsShort(ns);
      if Json.ArrayAt(t, 0) == Json.Strs(ns, |t|) {
        Json.StrsTake(t, 1);
        assert false;
      }
    }
  }

  /**
   * And it is the text that printing the names as JSON gives in the same cases, for names that such printing does not
   * alter by dropping control characters.
   */
  lemma ArrayOfNamesIff(ns: seq<seq<byte>>)
    requires Names(ns) && Json.AllClean(ns) == ns
    ensures Response(ns) == Json.ArrayText(ns) <==> PlainNames(ns) && |FileServer.Joined(ns)| <= 32768
  {
    var s, t := FileServer.Joined(ns), Response(ns);
    if PlainNames(ns) && |s| <= MAX_LIST {
      assert Cut(s, MAX_LIST) == s;
      ArrayOfNames(ns, s);
    } else if t == Json.ArrayText(ns) {
      assert t == t[0..|t|] && At(t, 0, t);
      Json.ArrayReads(t, 0, ns, |t|);
      FilesAreNamesIff(ns);
    }
  }

  /**
   * Without that proviso a control character behind the cut makes a difference: it is dropped by such printing, and
   * the response is the text printed, for a name that is not the one listed.
   */
  lemma ControlBehindCut(a: seq<byte>)
    requires |a| == MAX_LIST && PlainName(a)
    ensures Names([a + [1]]) && Response([a + [1]]) == Json.ArrayText([a + [1]]) && !PlainNames([a + [1]])
  {
    var n := a + [1];
    assert n[..|n| - 1] == a && n[|n| - 1] == 1 && Cut(n, MAX_LIST) == a && FileServer.Joined([n]) == n;
    EscapedPlain(a);
    FirstName(a);
    assert Json.Escaped(n) == a + [] == a;
    assert [91] + ([34] + a) + [34] + [93] == [91] + ([34] + a + [34]) + [93];
  }

  // ---- listings that are cut ----

  /** Number i of names of 255 bytes, all different. */
  function LongName(i: nat): (n: seq<byte>)
    requires i < 130
    ensures |n| == 255 && PlainName(n)
  {
    seq(253, _ => 97) + [97 + i / 26, 97 + i % 26]
  }

  function LongNames(k: nat): (ns: seq<seq<byte>>)
    requires k <= 130
    ensures |ns| == k
  {
    seq(k, i requires 0 <= i < k => LongName(i))
  }

  lemma {:induction false} JoinedLength(ns: seq<seq<byte>>, n: nat)
    requires ns != [] && forall i :: 0 <= i < |ns| ==> |ns[i]| == n
    ensures |FileServer.Joined(ns)| == |ns| * (n + 1) - 1
    decreases |ns|
  {
    if |ns| > 1 {
      JoinedLength(ns[1..], n);
      assert (|ns| - 1) * (n + 1) + (n + 1) == |ns| * (n + 1);
    }
  }

  /** A directory of 130 long but plain names is not listed right. */
  lemma LongListingMisread()
    ensures var ns := LongNames(130);
      && PlainNames(ns) && (forall i, j :: 0 <= i < j < |ns| ==> ns[i] != ns[j])
      && Json.ArrayAt(Response(ns), 0) != Json.Strs(ns, |Response(ns)|)
  {
    var ns := LongNames(130);
    JoinedLength(ns, 255);
    FilesAreNamesIff(ns);
    forall i, j | 0 <= i < j < |ns| ensures ns[i] != ns[j] {
      LongNamesDiffer(i, j);
    }
  }

  lemma LongNamesDiffer(i: nat, j: nat)
    requires i < j < 130
    ensures LongName(i) != LongName(j)
  {
    assert LongName(i)[253] == 97 + i / 26 && LongName(i)[254] == 97 + i % 26;
    assert LongName(j)[253] == 97 + j / 26 && LongName(j)[254] == 97 + j % 26;
  }

  /** a","b */
  const QUOTING: seq<byte> := [97, 34, 44, 34, 98]

  /** One name with quotes in it can come out as JSON for two others. */
  lemma OneNameReadsAsTwo()
    ensures var t := FilesText(FileServer.Joined([QUOTING]));
      Names([QUOTING]) && Json.ArrayAt(t, 0) == Json.Strs([[97], [98]], |t|)
  {
    var ns: seq<seq<byte>> := [[97], [98]];
    var t := FilesText(QUOTING);
    FirstName(QUOTING);
    assert t == [91, 34, 97, 34, 44, 34, 98, 34, 93];
    assert Json.StrAt(t, 7) == Json.Str([], 8) && Json.StrAt(t, 6) == Json.Str([98], 8);
    assert Json.StrAt(t, 3) == Json.Str([], 4) && Json.StrAt(t, 2) == Json.Str([97], 4);
    assert Json.StrsAt(t, 5) == Json.Strs([[98]], 9);
  }

  // ---- the host functions ----

  type Path = seq<byte>

  /** What a path yields over the device, cut to size; the device after that. */
  function Fetched(d: Dev, op: byte, path: Path, max: nat): (r: (Ended<Option<seq<byte>>>, Dev))
    ensures r.0.Returns? && r.0.value.Some? ==> |r.0.value.value| <= max
  {
    if !Utf8.Valid(path) then (Returns(None), d)
    else
      var (e, d1) := Exchanged(d, op, path, []);
      (match Content(e)
       case Stops => Stops
       case Returns(data) => Returns(if data.Some? then Some(Cut(data.value, max)) else None), d1)
  }

  /** What writing a file over the device comes to: 0, or -1 when the path is not text or the exchange fails. */
  function WriteResult(d: Dev, path: Path, data: seq<byte>): (r: (Ended<int>, Dev)) {
    if !Utf8.Valid(path) then (Returns(-1), d)
    else
      var (e, d1) := Exchanged(d, FileServer.OP_WRITE, path, data);
      (match Success(e) case Stops => Stops case Returns(ok) => Returns(if ok then 0 else -1), d1)
  }

  /** The paths of the application are too short to stop the kernel by themselves. */
  lemma FetchReturns(d: Dev, op: byte, path: Path, max: nat)
    requires |path| <= MAX_REQUEST
    ensures Fetched(d, op, path, max).0.Returns?
  {
    FileProtocol.ExchangeStopsIff(d, op, path, []);
  }

  /** How many bytes have been copied, or -1. */
  function Copied(r: Ended<Option<seq<byte>>>): (n: Ended<int>) {
    match r
    case Stops => Stops
    case Returns(data) => Returns(if data.Some? then |data.value| else -1)
  }

  function PutAt(m: seq<byte>, out: nat, r: Ended<Option<seq<byte>>>): (m': seq<byte>)
    requires r.Returns? && r.value.Some? ==> out + |r.value.value| <= |m|
  {
    if r.Returns? && r.value.Some? then Splice(m, out, r.value.value) else m
  }

  /** The host functions, over the device that reaches the file server. */
  class Host {
    const dev: VsockDev

    constructor (dev: VsockDev)
      ensures this.dev == dev
    {
      this.dev := dev;
    }

    /** Copy as much of the listing as fits to `out`; how much, or -1. */
    method FileList(mem: array<byte>, ptr: nat, len: nat, out: nat, max: nat) returns (n: Ended<int>)
      requires ptr + len <= mem.Length && out + max <= mem.Length
      modifies mem, dev
      ensures var (r, d) := Fetched(old(dev.State()), FileServer.OP_LIST, old(mem[ptr..ptr + len]), max);
        n == Copied(r) && dev.State() == d && mem[..] == PutAt(old(mem[..]), out, r)
    {
      var path := mem[ptr..ptr + len];
      if !Utf8.Valid(path) {
        return Returns(-1);
      }
      var r := dev.FileList(path);
      n := CopyResult(mem, r, out, max);
    }

    /** The same for a file's content. */
    method FileRead(mem: array<byte>, ptr: nat, len: nat, out: nat, max: nat) returns (n: Ended<int>)
      requires ptr + len <= mem.Length && out + max <= mem.Length
      modifies mem, dev
      ensures var (r, d) := Fetched(old(dev.State()), FileServer.OP_READ, old(mem[ptr..ptr + len]), max);
        n == Copied(r) && dev.State() == d && mem[..] == PutAt(old(mem[..]), out, r)
    {
      var path := mem[ptr..ptr + len];
      if !Utf8.Valid(path) {
        return Returns(-1);
      }
      var r := dev.FileRead(path);
      n := CopyResult(mem, r, out, max);
    }

    static method CopyResult(mem: array<byte>, r: Ended<Option<seq<byte>>>, out: nat, max: nat) returns (n: Ended<int>)
      requires out + max <= mem.Length
      modifies mem
      ensures var cut := match r
          case Stops => Stops
          case Returns(data) => Returns(if data.Some? then Some(Cut(data.value, max)) else None);
        n == Copied(cut) && mem[..] == PutAt(old(mem[..]), out, cut)
    {
      if r.Stops? {
        return Stops;
      }
      if r.value.None? {
        return Returns(-1);
      }
      var data := Cut(r.value.value, max);
      PutBytes(mem, out, data);
      n := Returns(|data|);
    }

    /** Write a file; 0, or -1. */
    method FileWrite(path: Path, data: seq<byte>) returns (n: Ended<int>)
      modifies dev
      ensures (n, dev.State()) == WriteResult(old(dev.State()), path, data)
    {
      if !Utf8.Valid(path) {
        return Returns(-1);
      }
      var ok := dev.FileWrite(path, data);
      n := if ok.Stops? then Stops else Returns(if ok.value then 0 else -1);
    }
  }

  // ---- listing ----

  /** Put out what byte b of the list adds. */
  method PutListed(mem: array<byte>, p: nat, b: byte, pen: Pen, ghost m0: seq<byte>, ghost text: seq<byte>)
    returns (q: nat)
    requires Written(m0, mem[..], text) && p == |text| && p + 3 <= mem.Length
    modifies mem
    ensures Written(m0, mem[..], text + Emitted(pen, b)) && q == |text + Emitted(pen, b)|
  {
    q := p;
    if b == NEWLINE {
      if pen.inName {
        q := PutByte(mem, q, 34, m0, text);
      } else {
        assert text + [] == text;
      }
    } else if pen.inName {
      q := PutByte(mem, q, b, m0, text);
    } else {
      if !pen.first {
        q := PutByte(mem, q, 44, m0, text);
      }
      ghost var lead := if pen.first then text else text + [44];
      q := PutByte(mem, q, 34, m0, lead);
      q := PutByte(mem, q, b, m0, lead + [34]);
      assert lead + [34] + [b] == text + Emitted(pen, b);
    }
  }

  lemma ListNext(s: seq<byte>, i: nat, start: seq<byte>)
    requires i < |s|
    ensures start + ListText(s[..i + 1]) == start + ListText(s[..i]) + Emitted(PenAfter(s[..i]), s[i])
    ensures PenAfter(s[..i + 1]) == if s[i] == NEWLINE then PenAfter(s[..i]).(inName := false) else Pen(false, true)
  {
    assert s[..i + 1] == s[..i] + [s[i]];
    ByteRead(s[..i], s[i]);
  }

  method PutListNext(mem: array<byte>, p: nat, i: nat, pen: Pen, ghost m0: seq<byte>, ghost start: seq<byte>,
      ghost s: seq<byte>) returns (q: nat, next: Pen)
    requires |start| == JSON_LENGTH + 1 && |m0| == MEMORY && i < |s| <= MAX_LIST && At(m0, LIST, s)
    requires Written(m0, mem[..], start + ListText(s[..i])) && p == |start + ListText(s[..i])|
    requires pen == PenAfter(s[..i])
    modifies mem
    ensures Written(m0, mem[..], start + ListText(s[..i + 1])) && q == |start + ListText(s[..i + 1])|
    ensures next == PenAfter(s[..i + 1])
  {
    ListBound(s[..i]);
    AtByte(m0, LIST, s, i);
    ListNext(s, i, start);
    var b := mem[LIST + i];
    q := PutListed(mem, p, b, pen, m0, start + ListText(s[..i]));
    next := if b == NEWLINE then pen.(inName := false) else Pen(false, true);
  }

  /** The loop over the n bytes of the list; the flags after it. */
  method PutList(mem: array<byte>, p: nat, n: nat, ghost m0: seq<byte>, ghost start: seq<byte>, ghost s: seq<byte>)
    returns (q: nat, pen: Pen)
    requires Written(m0, mem[..], start) && p == |start| == JSON_LENGTH + 1 && |m0| == MEMORY && n == |s| <= MAX_LIST
    requires At(m0, LIST, s)
    modifies mem
    ensures Written(m0, mem[..], start + ListText(s)) && q == |start + ListText(s)| && pen == PenAfter(s)
  {
    q, pen := p, Pen(true, false);
    var i := 0;
    assert s[..0] == [] && start + [] == start;
    while i < n
      invariant i <= n && Written(m0, mem[..], start + ListText(s[..i])) && q == |start + ListText(s[..i])|
      invariant pen == PenAfter(s[..i])
    {
      q, pen := PutListNext(mem, q, i, pen, m0, start, s);
      i := i + 1;
    }
    assert s[..n] == s;
  }

  /** The list as the application sees it: nothing when there is no listing. */
  function Seen(r: Ended<Option<seq<byte>>>): (s: seq<byte>) {
    if r.Returns? && r.value.Some? then r.value.value else []
  }

  /**
   * Answer with the file list as a JSON array. The list is put in its own area, the response at the front of
   * memory, at most 2n + 105 bytes for a list of n; nothing else changes.
   */
  method Files(mem: array<byte>, host: Host) returns (p: nat)
    requires mem.Length == MEMORY && At(mem[..], DOC, DOC_TEXT)
    modifies mem, host.dev
    ensures var (r, d) := Fetched(old(host.dev.State()), FileServer.OP_LIST, DOC_TEXT, MAX_LIST);
      var s := Seen(r);
      var response := old(mem[JSON_HEADER..JSON_HEADER + JSON_LENGTH]) + FilesText(s);
      && r.Returns? && host.dev.State() == d
      && p == |response| <= 2 * |s| + 105
      && Written(Splice(old(mem[..]), LIST, s), mem[..], response)
  {
    ghost var header := mem[JSON_HEADER..JSON_HEADER + JSON_LENGTH];
    ghost var s;
    var n;
    n, s := FetchList(mem, host);
    ghost var m0 := mem[..];
    assert m0[JSON_HEADER..JSON_HEADER + JSON_LENGTH] == header;
    p := PutArray(mem, if n > 0 then n else 0, m0, header, s);
  }

  /** The list in its area. */
  method FetchList(mem: array<byte>, host: Host) returns (n: int, ghost s: seq<byte>)
    requires mem.Length == MEMORY && At(mem[..], DOC, DOC_TEXT)
    modifies mem, host.dev
    ensures var (r, d) := Fetched(old(host.dev.State()), FileServer.OP_LIST, DOC_TEXT, MAX_LIST);
      r.Returns? && host.dev.State() == d && s == Seen(r)
    ensures |s| == (if n > 0 then n else 0) && |s| <= MAX_LIST
    ensures mem[..] == Splice(old(mem[..]), LIST, s) && At(mem[..], LIST, s)
  {
    assert mem[DOC..DOC + 4] == mem[..][DOC..DOC + 4] == DOC_TEXT;
    ghost var r := Fetched(host.dev.State(), FileServer.OP_LIST, DOC_TEXT, MAX_LIST).0;
    FetchReturns(host.dev.State(), FileServer.OP_LIST, DOC_TEXT, MAX_LIST);
    s := Seen(r);
    SpliceHit(mem[..], LIST, s);
    SpliceNothing(mem[..], LIST);
    var listed := host.FileList(mem, DOC, 4, LIST, MAX_LIST);
    n := listed.value;
  }

  lemma SpliceNothing(m: seq<byte>, at: nat)
    requires at <= |m|
    ensures Splice(m, at, []) == m
  {
  }

  method PutArray(mem: array<byte>, n: nat, ghost m0: seq<byte>, ghost header: seq<byte>, ghost s: seq<byte>)
    returns (p: nat)
    requires mem[..] == m0 && |m0| == MEMORY && m0[JSON_HEADER..JSON_HEADER + JSON_LENGTH] == header
    requires n == |s| <= MAX_LIST && At(m0, LIST, s)
    modifies mem
    ensures p == |header + FilesText(s)| <= 2 * n + 105 && Written(m0, mem[..], header + FilesText(s))
  {
    p := PutOpening(mem, m0, header);
    var pen;
    p, pen := PutList(mem, p, n, m0, header + [91], s);
    ListBound(s);
    p := PutClosing(mem, p, pen, m0, header + [91] + ListText(s));
    Enclosed(header, ListText(s), Closing(pen));
  }

  lemma Enclosed(header: seq<byte>, list: seq<byte>, closing: seq<byte>)
    ensures header + [91] + list + closing + [93] == header + ([91] + list + closing + [93])
  {
  }

  method PutOpening(mem: array<byte>, ghost m0: seq<byte>, ghost header: seq<byte>) returns (p: nat)
    requires mem[..] == m0 && |m0| == MEMORY && m0[JSON_HEADER..JSON_HEADER + JSON_LENGTH] == header
    modifies mem
    ensures Written(m0, mem[..], header + [91]) && p == |header + [91]| == JSON_LENGTH + 1
  {
    assert [] + m0[0..] == m0;
    p := CopyOut(mem, 0, JSON_HEADER, JSON_LENGTH, m0, []);
    assert [] + header == header;
    p := PutByte(mem, p, 91, m0, header);
  }

  /** The quote after a name that the list ends with, and the bracket. */
  method PutClosing(mem: array<byte>, p: nat, pen: Pen, ghost m0: seq<byte>, ghost text: seq<byte>) returns (q: nat)
    requires Written(m0, mem[..], text) && p == |text| && p + 2 <= mem.Length
    modifies mem
    ensures Written(m0, mem[..], text + Closing(pen) + [93]) && q == |text + Closing(pen) + [93]|
  {
    q := p;
    if pen.inName {
      q := PutByte(mem, q, 34, m0, text);
    }
    assert !pen.inName ==> text + Closing(pen) == text;
    q := PutByte(mem, q, 93, m0, text + Closing(pen));
  }

  // ---- saving and reading ----

  datatype Request = Malformed | Save(path: Path, content: seq<byte>)

  /** A name of 1 to 240 bytes, a newline, the content. */
  function SaveRequest(body: seq<byte>): (r: Request) {
    var i := IndexOf(body, NEWLINE);
    if i == |body| || i == 0 || i > MAX_NAME then Malformed else Save(DOC_TEXT + body[..i], body[i + 1..])
  }

  /** Names longer than 240 bytes are cut. */
  function ReadPath(name: seq<byte>): (p: Path) {
    DOC_TEXT + Cut(name, MAX_NAME)
  }

  /** Put doc/ and the name of n bytes at `from` into the path area; the path's length. */
  method BuildPath(mem: array<byte>, from: nat, n: nat) returns (len: nat)
    requires mem.Length == MEMORY && At(mem[..], DOC, DOC_TEXT) && n <= MAX_NAME && from + n <= PATH
    modifies mem
    ensures len == 4 + n && mem[PATH..PATH + len] == DOC_TEXT + old(mem[from..from + n])
    ensures forall k :: 0 <= k < mem.Length && !(PATH <= k < CONTENT) ==> mem[k] == old(mem[k])
  {
    ghost var m := mem[..];
    assert m[DOC..DOC + 4] == mem[DOC..DOC + 4] && m[from..from + n] == mem[from..from + n];
    MemoryCopy(mem, PATH, DOC, 4);
    ghost var m1 := mem[..];
    assert m1[from..from + n] == mem[from..from + n];
    MemoryCopy(mem, PATH + 4, from, n);
    len := 4 + n;
    PathPut(m, m1, from, n);
    assert mem[PATH..PATH + len] == mem[..][PATH..PATH + len];
  }

  lemma PathPut(m: seq<byte>, m1: seq<byte>, from: nat, n: nat)
    requires |m| == MEMORY && At(m, DOC, DOC_TEXT) && n <= MAX_NAME && from + n <= PATH
    requires m1 == Splice(m, PATH, m[DOC..DOC + 4])
    ensures var m2 := Splice(m1, PATH + 4, m1[from..from + n]);
      && m2[PATH..PATH + 4 + n] == DOC_TEXT + m[from..from + n]
      && forall k :: 0 <= k < |m| && !(PATH <= k < CONTENT) ==> m2[k] == m[k]
  {
    SpliceFrame(m, PATH, DOC_TEXT, from, from + n);
    var name := m[from..from + n];
    SpliceHit(m, PATH, DOC_TEXT);
    SpliceBehind(m1, PATH, DOC_TEXT, name);
  }

  lemma SpliceBehind(m: seq<byte>, at: nat, a: seq<byte>, b: seq<byte>)
    requires at + |a| + |b| <= |m| && m[at..at + |a|] == a
    ensures Splice(m, at + |a|, b)[at..at + |a| + |b|] == a + b
  {
    var r := Splice(m, at + |a|, b);
    SpliceFrame(m, at + |a|, b, at, at + |a|);
    SpliceHit(m, at + |a|, b);
    assert r[at..at + |a| + |b|] == r[at..at + |a|] + r[at + |a|..at + |a| + |b|];
  }

  /** The response of the given length at the front of memory. */
  predicate Replied(m: seq<byte>, len: nat, response: seq<byte>) {
    len == |response| <= |m| && m[..len] == response
  }

  /** Copy a static response to the front of memory. */
  method Reply(mem: array<byte>, at: nat, n: nat) returns (len: nat)
    requires at + n <= mem.Length
    modifies mem
    ensures Replied(mem[..], len, old(mem[at..at + n]))
  {
    MemoryCopy(mem, 0, at, n);
    len := n;
  }

  method FindNewline(mem: array<byte>, bp: nat, bl: nat) returns (i: nat)
    requires bp + bl <= mem.Length
    ensures i == IndexOf(mem[bp..bp + bl], NEWLINE)
  {
    ghost var body := mem[bp..bp + bl];
    i := 0;
    while i < bl
      invariant i <= bl && forall k :: 0 <= k < i ==> body[k] != NEWLINE
    {
      if mem[bp + i] == NEWLINE {
        return;
      }
      i := i + 1;
    }
  }

  /** What saving the body comes to, and the device after that. */
  function Saved(d: Dev, body: seq<byte>): (r: (Ended<int>, Dev)) {
    var r := SaveRequest(body);
    if r.Save? then WriteResult(d, r.path, r.content) else (Returns(-1), d)
  }

  /**
   * Save a document: the request to write the named file with what follows the first newline, and no other, goes out,
   * and its outcome is the answer. No response comes when the exchange stops the kernel.
   */
  method SaveFile(mem: array<byte>, host: Host, bp: nat, bl: nat) returns (len: Ended<nat>)
    requires mem.Length == MEMORY && At(mem[..], DOC, DOC_TEXT) && bp + bl <= PATH
    modifies mem, host.dev
    ensures var (w, d) := Saved(old(host.dev.State()), old(mem[bp..bp + bl]));
      && host.dev.State() == d && (len.Stops? <==> w.Stops?)
      && (w == Returns(0) ==> Replied(mem[..], len.value, old(mem[TEXT_HEADER..TEXT_HEADER + TEXT_LENGTH])))
      && (w.Returns? && w != Returns(0) ==>
            Replied(mem[..], len.value, old(mem[BAD_REQUEST..BAD_REQUEST + BAD_LENGTH])))
  {
    ghost var m := mem[..];
    var w := SaveOut(mem, host, bp, bl);
    if w.Stops? {
      return Stops;
    }
    StaticKept(m, mem[..], TEXT_HEADER, TEXT_LENGTH);
    StaticKept(m, mem[..], BAD_REQUEST, BAD_LENGTH);
    var n := Answer(mem, w.value, m);
    len := Returns(n);
  }

  lemma StaticKept(m: seq<byte>, m': seq<byte>, at: nat, n: nat)
    requires |m| == |m'| == MEMORY && JSON_HEADER <= at && at + n <= MEMORY
    requires forall k :: 0 <= k < |m| && !(PATH <= k < CONTENT) ==> m'[k] == m[k]
    ensures m'[at..at + n] == m[at..at + n]
  {
  }

  /** Success or a bad request. */
  method Answer(mem: array<byte>, w: int, ghost m: seq<byte>) returns (n: nat)
    requires mem.Length == |m| == MEMORY
    requires mem[..][TEXT_HEADER..TEXT_HEADER + TEXT_LENGTH] == m[TEXT_HEADER..TEXT_HEADER + TEXT_LENGTH]
    requires mem[..][BAD_REQUEST..BAD_REQUEST + BAD_LENGTH] == m[BAD_REQUEST..BAD_REQUEST + BAD_LENGTH]
    modifies mem
    ensures Replied(mem[..], n, if w < 0 then m[BAD_REQUEST..BAD_REQUEST + BAD_LENGTH]
              else m[TEXT_HEADER..TEXT_HEADER + TEXT_LENGTH])
  {
    if w < 0 {
      assert mem[..][BAD_REQUEST..BAD_REQUEST + BAD_LENGTH] == mem[BAD_REQUEST..BAD_REQUEST + BAD_LENGTH];
      n := Reply(mem, BAD_REQUEST, BAD_LENGTH);
    } else {
      assert mem[..][TEXT_HEADER..TEXT_HEADER + TEXT_LENGTH] == mem[TEXT_HEADER..TEXT_HEADER + TEXT_LENGTH];
      n := Reply(mem, TEXT_HEADER, TEXT_LENGTH);
    }
  }

  /** Find the newline, check the name and write the document: 0, or -1. */
  method SaveOut(mem: array<byte>, host: Host, bp: nat, bl: nat) returns (w: Ended<int>)
    requires mem.Length == MEMORY && At(mem[..], DOC, DOC_TEXT) && bp + bl <= PATH
    modifies mem, host.dev
    ensures (w, host.dev.State()) == Saved(old(host.dev.State()), old(mem[bp..bp + bl]))
    ensures w.Returns? ==> w.value == 0 || w.value == -1
    ensures forall k :: 0 <= k < mem.Length && !(PATH <= k < CONTENT) ==> mem[k] == old(mem[k])
  {
    ghost var body := mem[bp..bp + bl];
    var i := FindNewline(mem, bp, bl);
    if bl == 0 || i == bl || i == 0 || i > MAX_NAME {
      return Returns(-1);
    }
    assert mem[bp..bp + i] == body[..i] && mem[bp + i + 1..bp + bl] == body[i + 1..];
    w := WriteOut(mem, host, bp, i, bl);
  }

  /** Build the path from the i bytes at bp and write what follows the newline behind them. */
  method WriteOut(mem: array<byte>, host: Host, bp: nat, i: nat, bl: nat) returns (n: Ended<int>)
    requires mem.Length == MEMORY && At(mem[..], DOC, DOC_TEXT) && bp + bl <= PATH
    requires i < bl && i <= MAX_NAME
    modifies mem, host.dev
    ensures var path, content := DOC_TEXT + old(mem[bp..bp + i]), old(mem[bp + i + 1..bp + bl]);
      (n, host.dev.State()) == WriteResult(old(host.dev.State()), path, content)
    ensures forall k :: 0 <= k < mem.Length && !(PATH <= k < CONTENT) ==> mem[k] == old(mem[k])
  {
    ghost var content := mem[bp + i + 1..bp + bl];
    var len := BuildPath(mem, bp, i);
    assert mem[bp + i + 1..bp + bl] == content;
    n := host.FileWrite(mem[PATH..PATH + len], mem[bp + i + 1..bp + bl]);
  }

  /** Read a document: its content, cut to 32512 bytes, after the header. */
  method ReadFile(mem: array<byte>, host: Host, bp: nat, bl: nat) returns (len: nat)
    requires mem.Length == MEMORY && At(mem[..], DOC, DOC_TEXT) && bp + bl <= PATH
    modifies mem, host.dev
    ensures bl == 0 ==>
      host.dev.State() == old(host.dev.State())
      && Replied(mem[..], len, old(mem[BAD_REQUEST..BAD_REQUEST + BAD_LENGTH]))
    ensures bl > 0 ==>
      var (r, d) := Fetched(old(host.dev.State()), FileServer.OP_READ, ReadPath(old(mem[bp..bp + bl])), MAX_CONTENT);
      && r.Returns? && host.dev.State() == d
      && Replied(mem[..], len,
           if r.value.None? then old(mem[NOT_FOUND..NOT_FOUND + NOT_FOUND_LENGTH])
           else old(mem[TEXT_HEADER..TEXT_HEADER + TEXT_LENGTH]) + r.value.value)
  {
    var nl := if bl > MAX_NAME then MAX_NAME else bl;
    if nl == 0 {
      len := Reply(mem, BAD_REQUEST, BAD_LENGTH);
      return;
    }
    assert mem[bp..bp + nl] == Cut(mem[bp..bp + bl], MAX_NAME);
    ghost var name, text, missing :=
        mem[bp..bp + nl], mem[TEXT_HEADER..TEXT_HEADER + TEXT_LENGTH], mem[NOT_FOUND..NOT_FOUND + NOT_FOUND_LENGTH];
    var pl := BuildPath(mem, bp, nl);
    assert mem[TEXT_HEADER..TEXT_HEADER + TEXT_LENGTH] == text
        && mem[NOT_FOUND..NOT_FOUND + NOT_FOUND_LENGTH] == missing;
    len := ReadOut(mem, host, pl, DOC_TEXT + name);
  }

  /** Answer with the file whose path stands in the path area. */
  method ReadOut(mem: array<byte>, host: Host, pl: nat, ghost path: Path) returns (len: nat)
    requires mem.Length == MEMORY && PATH + pl <= CONTENT && mem[PATH..PATH + pl] == path
    modifies mem, host.dev
    ensures var (r, d) := Fetched(old(host.dev.State()), FileServer.OP_READ, path, MAX_CONTENT);
      && r.Returns? && host.dev.State() == d
      && Replied(mem[..], len,
           if r.value.None? then old(mem[NOT_FOUND..NOT_FOUND + NOT_FOUND_LENGTH])
           else old(mem[TEXT_HEADER..TEXT_HEADER + TEXT_LENGTH]) + r.value.value)
  {
    ghost var text := mem[TEXT_HEADER..TEXT_HEADER + TEXT_LENGTH];
    FetchReturns(host.dev.State(), FileServer.OP_READ, path, MAX_CONTENT);
    var n := host.FileRead(mem, PATH, pl, CONTENT, MAX_CONTENT);
    if n.value < 0 {
      len := Reply(mem, NOT_FOUND, NOT_FOUND_LENGTH);
      return;
    }
    assert mem[TEXT_HEADER..TEXT_HEADER + TEXT_LENGTH] == text;
    len := ReplyWith(mem, n.value);
  }

  /** The header and the n bytes of the content area. */
  method ReplyWith(mem: array<byte>, n: nat) returns (len: nat)
    requires mem.Length == MEMORY && n <= MAX_CONTENT
    modifies mem
    ensures Replied(mem[..], len, old(mem[TEXT_HEADER..TEXT_HEADER + TEXT_LENGTH]) + old(mem[CONTENT..CONTENT + n]))
  {
    ghost var header, content := mem[TEXT_HEADER..TEXT_HEADER + TEXT_LENGTH], mem[CONTENT..CONTENT + n];
    MemoryCopy(mem, 0, TEXT_HEADER, TEXT_LENGTH);
    assert mem[CONTENT..CONTENT + n] == content && mem[..TEXT_LENGTH] == header;
    MemoryCopy(mem, TEXT_LENGTH, CONTENT, n);
    len := TEXT_LENGTH + n;
    assert mem[..len] == mem[..TEXT_LENGTH] + mem[TEXT_LENGTH..len];
  }

  /** A body as the page sends it is a request to write that name's document. */
  lemma SaveUnderstood(name: seq<byte>, content: seq<byte>)
    requires 1 <= |name| <= MAX_NAME && NEWLINE !in name
    ensures SaveRequest(name + [NEWLINE] + content) == Save(ReadPath(name), content)
  {
    var body := name + [NEWLINE] + content;
    IndexIs(body, NEWLINE, |name|);
    assert body[..|name|] == name && body[|name| + 1..] == content && Cut(name, MAX_NAME) == name;
  }

  /**
   * A save stops the kernel exactly when the body is well formed, its path is text, the connection is accepted and
   * the body has more than 4042 bytes.
   */
  lemma SaveStopsIff(d: Dev, body: seq<byte>)
    ensures var i := IndexOf(body, NEWLINE);
      Saved(d, body).0.Stops? <==>
        && 0 < i < |body| && i <= MAX_NAME && Utf8.Valid(DOC_TEXT + body[..i])
        && FileProtocol.AcceptedWithin(Drained(d).rx, POLLS) && |body| > 4042
  {
    var r := SaveRequest(body);
    if r.Save? {
      FileProtocol.ExchangeStopsIff(d, FileServer.OP_WRITE, r.path, r.content);
    }
  }

  /** A body that names no document, or a path that is no text, is answered at once; nothing is sent. */
  lemma SaveRejected(d: Dev, body: seq<byte>)
    ensures var i := IndexOf(body, NEWLINE);
      (i == 0 || i == |body| || i > 240 || !Utf8.Valid(DOC_TEXT + body[..i])) ==> Saved(d, body) == (Returns(-1), d)
  {
  }

  /** A connection that does not come about makes the save fail. */
  lemma SaveUnreached(d: Dev, body: seq<byte>)
    requires !FileProtocol.AcceptedWithin(Drained(d).rx, POLLS)
    ensures Saved(d, body).0 == Returns(-1)
  {
    var r := SaveRequest(body);
    if r.Save? {
      FileProtocol.ExchangeStopsIff(d, FileServer.OP_WRITE, r.path, r.content);
    }
  }

  lemma DocText()
    ensures DOC_TEXT == Ascii("doc/")
  {
  }

  /** The document of a name, and of the first 240 bytes of a longer one. */
  lemma PathRead(name: seq<byte>)
    ensures |name| <= 240 ==> ReadPath(name) == Ascii("doc/") + name
    ensures |name| > 240 ==> ReadPath(name) == ReadPath(name[..240])
  {
    DocText();
    assert |name| <= 240 ==> Cut(name, 240) == name;
    assert |name| > 240 ==> Cut(name[..240], 240) == name[..240];
  }

  /** Without a listing the list is empty. */
  lemma NoListing()
    ensures FilesText(Seen(Returns(None))) == Ascii("[]") && FilesText(Seen(Returns(Some([])))) == Ascii("[]")
  {
  }

  // ---- behind the page endpoint ----

  /** Any front part of a save's body that reaches into the content saves that much of it as the whole document. */
  lemma SaveCut(name: seq<byte>, content: seq<byte>, k: nat)
    requires 1 <= |name| <= MAX_NAME && NEWLINE !in name && |name| < k <= |name| + 1 + |content|
    ensures SaveRequest((name + [NEWLINE] + content)[..k]) == Save(ReadPath(name), content[..k - |name| - 1])
  {
    var part := content[..k - |name| - 1];
    assert (name + [NEWLINE] + content)[..k] == name + [NEWLINE] + part;
    SaveUnderstood(name, part);
  }

  /**
   * So behind the page endpoint a document that makes a body of more than 1023 bytes is never saved whole: what is
   * saved under its name, if anything, is a part of it; and no save stops the kernel.
   */
  lemma PageSaves(stream: seq<byte>, req: Http.Request, d: Dev, name: seq<byte>, content: seq<byte>)
    requires Http.HeaderEnd(stream).Some? && Pages.MayAsk(stream, req)
    requires Http.ParseHttp(stream).body == name + [NEWLINE] + content
    requires 1 <= |name| <= MAX_NAME && NEWLINE !in name
    ensures !Saved(d, req.body).0.Stops?
    ensures var r := SaveRequest(req.body);
      r.Malformed? || (r.path == ReadPath(name) && r.content <= content && |name| + 1 + |r.content| <= 1023)
  {
    Pages.BodiesIff(stream, req);
    var k: nat :| k <= |Http.ParseHttp(stream).body| && k < Pages.PAGE_CHUNK && req == Pages.BodyCut(stream, k);
    SaveStopsIff(d, req.body);
    if |name| < k {
      SaveCut(name, content, k);
    } else {
      NoNewline(req.body);
    }
  }

  lemma NoNewline(body: seq<byte>)
    requires NEWLINE !in body
    ensures SaveRequest(body).Malformed?
  {
  }

  // ---- against the file server ----

  lemma DocIsText()
    ensures Utf8.Valid(DOC_TEXT)
  {
    Utf8.AsciiValid(DOC_TEXT);
  }

  /**
   * A listing that the server delivers is what the response shows, as much of it as fits, and that reads as the names
   * in the directory exactly when they are plain and not too many.
   */
  lemma ListingServed(h: FileServer.Host, files: map<Path, seq<byte>>, d: Dev, ns: seq<seq<byte>>)
    requires FileServer.ValidHost(h) && DOC_TEXT in h.resolve && h.resolve[DOC_TEXT] in h.dirs
    requires ns == h.dirs[h.resolve[DOC_TEXT]] && |FileServer.Joined(ns)| < TWO32
    requires FileProtocol.Session(h, files, d, Fetched(d, FileServer.OP_LIST, DOC_TEXT, MAX_LIST).1)
    ensures var t := FilesText(Seen(Fetched(d, FileServer.OP_LIST, DOC_TEXT, MAX_LIST).0));
      t == Response(ns) && (Names(ns) ==>
        (Json.ArrayAt(t, 0) == Json.Strs(ns, |t|) <==> PlainNames(ns) && |FileServer.Joined(ns)| <= MAX_LIST))
  {
    if Names(ns) {
      FilesAreNamesIff(ns);
    }
    DocIsText();
    FileProtocol.SessionYields(h, files, d, FileServer.OP_LIST, DOC_TEXT, [], FileServer.STATUS_OK,
                               FileServer.Joined(ns));
  }

  /** A document that the server refuses to write is reported as not saved, and no file changes. */
  lemma SaveRefused(h: FileServer.Host, files: map<Path, seq<byte>>, name: seq<byte>, content: seq<byte>, d: Dev)
    requires FileServer.ValidHost(h) && 1 <= |name| <= MAX_NAME && NEWLINE !in name
    requires var path := ReadPath(name);
      && Utf8.Valid(path) && Fits(path, content) && (path in h.resolve ==> h.resolve[path] in h.refused)
      && FileProtocol.Session(h, files, d, Saved(d, name + [NEWLINE] + content).1)
    ensures var (saved, after) := Saved(d, name + [NEWLINE] + content);
      saved == Returns(-1) && FileServer.Handled(h, files, FileProtocol.Uploaded(d, after)).files == files
  {
    var path := ReadPath(name);
    var text := if path in h.resolve then h.trouble else Ascii("path traversal denied");
    SaveUnderstood(name, content);
    FileProtocol.SessionYields(h, files, d, FileServer.OP_WRITE, path, content, FileServer.STATUS_ERROR, text);
  }

  /**
   * A document that was saved is read back exactly, unless it is longer than the content area, and no other file
   * changes: from the body of the save to the body of the answer, through both exchanges and the server.
   */
  lemma SavedIsRead(h: FileServer.Host, files: map<Path, seq<byte>>, name: seq<byte>, content: seq<byte>, dw: Dev,
      dr: Dev)
    requires FileServer.ValidHost(h) && 1 <= |name| <= MAX_NAME && NEWLINE !in name
    requires var path := ReadPath(name);
      && Utf8.Valid(path) && Fits(path, content) && path in h.resolve && h.resolve[path] !in h.refused
      && FileProtocol.Session(h, files, dw, Saved(dw, name + [NEWLINE] + content).1)
      && FileProtocol.Session(h, files[h.resolve[path] := content], dr,
           Fetched(dr, FileServer.OP_READ, path, MAX_CONTENT).1)
    ensures var path, (saved, d) := ReadPath(name), Saved(dw, name + [NEWLINE] + content);
      && saved == Returns(0)
      && FileServer.Handled(h, files, FileProtocol.Uploaded(dw, d)).files == files[h.resolve[path] := content]
      && Fetched(dr, FileServer.OP_READ, path, MAX_CONTENT).0 == Returns(Some(Cut(content, 32512)))
  {
    SaveUnderstood(name, content);
    FileProtocol.WriteThenRead(h, files, ReadPath(name), content, dw, dr);
  }
}
