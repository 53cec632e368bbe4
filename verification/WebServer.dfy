/** The main loop of the web server: feed distribution, hot swap, fetch, pages and uploads, turn after turn. */
module WebServer {
  import opened Bytes
  import opened Router
  import Admin
  import Decimal
  import Fetch
  import FileServer
  import Http
  import Pages
  import Utf8

  /** A request as an application gets it, with the feed it has then. */
  datatype Call = Call(feed: seq<byte>, verb: seq<byte>, path: seq<byte>, body: seq<byte>)

  /** A loaded module, the feed it was given last and the requests it has handled, which is all its state depends on. */
  datatype App = App(code: seq<byte>, feed: seq<byte>, calls: seq<Call>)

  datatype Static = Static(path: seq<byte>, content: seq<byte>, ctype: seq<byte>)

  /** Which modules load, what an application answers, and the static files. */
  datatype Site = Site(loads: seq<byte> -> bool, answers: (App, Call) -> Option<seq<byte>>, statics: seq<Static>)

  datatype Upload = Upload(prefix: seq<byte>, bytes: seq<byte>)

  datatype Write = Write(key: seq<byte>, data: seq<byte>)

  /** The loop's variables, what was answered on either port and stored, all uploads accepted and taken up so far. */
  datatype Server = Server(
    routes: seq<Route<App>>, fetch: Fetch.State, slots: seq<bool>, pendingFeed: Option<seq<byte>>, lastFeed: seq<byte>,
    pendingEntry: Option<Upload>, page: Pages.Page, shown: seq<seq<byte>>, admin: Admin.Endpoint,
    answers: seq<Admin.Outcome>, writes: seq<Write>, uploads: seq<Upload>, installs: seq<Upload>)

  /**
   * What one turn of the loop meets: the fetch socket; a new peer on port 80 and what it will send, that socket; the
   * same on port 8081.
   */
  datatype Input = Input(
    fetch: Fetch.Look, visitor: Option<seq<byte>>, page: Pages.Look, peer: Option<seq<byte>>, look: Admin.Look)

  // ---- one turn ----

  function GivenFeed(rs: seq<Route<App>>, feed: seq<byte>): (r: seq<Route<App>>)
    ensures |r| == |rs| && forall i :: 0 <= i < |rs| ==> r[i] == Route(rs[i].prefix, rs[i].app.(feed := feed))
  {
    seq(|rs|, i requires 0 <= i < |rs| => Route(rs[i].prefix, rs[i].app.(feed := feed)))
  }

  function FeedApplied(s: Server): (r: Server) {
    if s.pendingFeed.None? then s
    else s.(pendingFeed := None, lastFeed := s.pendingFeed.value, routes := GivenFeed(s.routes, s.pendingFeed.value))
  }

  function EntryApplied(loads: seq<byte> -> bool, s: Server): (r: Server) {
    if s.pendingEntry.None? then s
    else
      var u := s.pendingEntry.value;
      s.(pendingEntry := None, installs := s.installs + [u],
         routes := if loads(u.bytes) then Inserted(s.routes, u.prefix, App(u.bytes, s.lastFeed, [])) else s.routes)
  }

  function Fetched(s: Server, look: Fetch.Look): (r: Server) {
    var t := Fetch.Turn(s.fetch, s.slots, look);
    s.(fetch := t.state, slots := t.slots, pendingFeed := if t.feed.Some? then t.feed else s.pendingFeed)
  }

  /** "app.wasm" for the root, otherwise the prefix without its first byte if that is text. */
  function StoreKey(prefix: seq<byte>): (k: seq<byte>) {
    var wasm: seq<byte> := [46, 119, 97, 115, 109];
    var app: seq<byte> := [97, 112, 112];
    if prefix == [47] || prefix == [] || !Utf8.Valid(prefix[1..]) then app + wasm else prefix[1..] + wasm
  }

  /** The response when no application answers. */
  function Fallback(): (r: seq<byte>) {
    Ascii("HTTP/1.1 200 OK\r\n") + Ascii("Content-Type: text/plain\r\n")
    + Ascii("Connection: close\r\n\r\n") + Ascii("Hello from unikernel (no WASM)\r\n")
  }

  const STATIC_HEAD: string := "HTTP/1.1 200 OK\r\nContent-Type: "
  const STATIC_LENGTH: string := "\r\nContent-Length: "
  const STATIC_END: string := "\r\nConnection: close\r\n\r\n"

  /** The index of the first static file with exactly this path. */
  function StaticIndex(statics: seq<Static>, path: seq<byte>): (i: nat)
    ensures i <= |statics| && (i < |statics| ==> statics[i].path == path)
    ensures forall k :: 0 <= k < i ==> statics[k].path != path
  {
    if statics == [] || statics[0].path == path then 0 else 1 + StaticIndex(statics[1..], path)
  }

  function StaticResponse(f: Static): (r: seq<byte>) {
    Ascii(STATIC_HEAD) + (if Utf8.Valid(f.ctype) then f.ctype else Ascii("text/html"))
    + Ascii(STATIC_LENGTH) + Decimal.Digits(|f.content|) + Ascii(STATIC_END) + f.content
  }

  /** The path below a prefix, as the application sees it. */
  function Below(path: seq<byte>, n: nat): (p: seq<byte>)
    requires n <= |path|
  {
    if path[n..] == [] then [Http.SLASH] else path[n..]
  }

  /** The response to a request and the routes after it: a static file, or the application routed to. */
  function Answered(site: Site, rs: seq<Route<App>>, req: Http.Request): (r: (seq<byte>, seq<Route<App>>)) {
    var i, best := StaticIndex(site.statics, req.path), Best(rs, req.path, |rs|);
    if i < |site.statics| then (StaticResponse(site.statics[i]), rs)
    else if best.None? then (Fallback(), rs)
    else
      var r := rs[best.value];
      var call := Call(r.app.feed, req.verb, Below(req.path, |r.prefix|), req.body);
      var answer := site.answers(r.app, call);
      (if answer.Some? then answer.value else Fallback(),
       rs[best.value := Route(r.prefix, r.app.(calls := r.app.calls + [call]))])
  }

  function Paged(site: Site, s: Server, visitor: Option<seq<byte>>, look: Pages.Look): (r: Server) {
    var p := if visitor.Some? then s.page.(incoming := visitor.value) else s.page;
    var t := Pages.Turn(p, look);
    if t.asked.None? then s.(page := t.next)
    else
      var (response, routes) := Answered(site, s.routes, t.asked.value);
      s.(page := t.next, shown := s.shown + [response], routes := routes)
  }

  function Administered(s: Server, peer: Option<seq<byte>>, look: Admin.Look): (r: Server) {
    var e := if peer.Some? then s.admin.(incoming := peer.value) else s.admin;
    var t := Admin.Turn(e, look);
    var r := s.(admin := t.next, answers := s.answers + Spoken(t.outcome));
    if !t.outcome.Accepted? then r
    else
      var u := Upload(t.outcome.prefix, t.outcome.bytes);
      r.(pendingEntry := Some(u), uploads := s.uploads + [u], writes := s.writes + [Write(StoreKey(u.prefix), u.bytes)])
  }

  /** What a request came to, unless nothing yet. */
  function Spoken(o: Admin.Outcome): (os: seq<Admin.Outcome>) {
    if o == Admin.Nothing then [] else [o]
  }

  function Applied(loads: seq<byte> -> bool, s: Server): (r: Server) {
    EntryApplied(loads, FeedApplied(s))
  }

  /** A turn of the loop; there are none once the kernel has stopped. */
  function Iterated(site: Site, s: Server, input: Input): (r: Server) {
    if s.admin.state.Halted? then s else Administered(Visited(site, s, input), input.peer, input.look)
  }

  /** The turn up to the upload endpoint. */
  function Visited(site: Site, s: Server, input: Input): (r: Server) {
    Paged(site, Fetched(Applied(site.loads, s), input.fetch), input.visitor, input.page)
  }

  function After(site: Site, s: Server, inputs: seq<Input>): (r: Server)
    decreases |inputs|
  {
    if inputs == [] then s else After(site, Iterated(site, s, inputs[0]), inputs[1..])
  }

  // ---- what every turn keeps ----

  /** Every application has the last feed. */
  predicate Fed(rs: seq<Route<App>>, feed: seq<byte>) {
    forall i :: 0 <= i < |rs| ==> rs[i].app.feed == feed
  }

  function Waiting(s: Server): (us: seq<Upload>) {
    if s.pendingEntry.Some? then [s.pendingEntry.value] else []
  }

  predicate Inv(s: Server) {
    && Distinct(s.routes) && Fed(s.routes, s.lastFeed)
    && Fetch.SocketsRight(s.fetch, s.slots) && Fetch.Ticking(s.fetch)
    && s.installs + Waiting(s) == s.uploads
  }

  lemma AppliedKeepsInv(loads: seq<byte> -> bool, s: Server)
    requires Inv(s)
    ensures Inv(Applied(loads, s)) && Applied(loads, s).pendingEntry == None && Applied(loads, s).pendingFeed == None
    ensures Applied(loads, s).lastFeed == if s.pendingFeed.Some? then s.pendingFeed.value else s.lastFeed
  {
    var f := FeedApplied(s);
    assert Fed(f.routes, f.lastFeed) && Distinct(f.routes);
    if f.pendingEntry.Some? {
      var u := f.pendingEntry.value;
      InsertedDistinct(f.routes, u.prefix, App(u.bytes, f.lastFeed, []));
      assert s.installs + [u] + [] == s.uploads;
    }
  }

  lemma FetchedKeepsInv(s: Server, look: Fetch.Look)
    requires Inv(s)
    ensures Inv(Fetched(s, look)) && Fetched(s, look).pendingEntry == s.pendingEntry
  {
    Fetch.TurnKeepsSockets(s.fetch, s.slots, look);
    Fetch.TurnsRunOut(s.fetch, s.slots, look);
  }

  /** An upload can only complete when no other one is pending: none is overwritten. */
  lemma AdministeredKeepsInv(s: Server, peer: Option<seq<byte>>, look: Admin.Look)
    requires Inv(s) && s.pendingEntry == None
    ensures Inv(Administered(s, peer, look))
  {
    assert s.installs + [] == s.installs;
  }

  /** Answering a page changes what one application has handled, and nothing else that the loop relies on. */
  lemma PagedKeepsInv(site: Site, s: Server, visitor: Option<seq<byte>>, look: Pages.Look)
    requires Inv(s)
    ensures Inv(Paged(site, s, visitor, look)) && Paged(site, s, visitor, look).pendingEntry == s.pendingEntry
    ensures Modules(Paged(site, s, visitor, look).routes) == Modules(s.routes)
  {
    PagedKeepsModules(site, s, visitor, look);
  }

  lemma PagedKeepsModules(site: Site, s: Server, visitor: Option<seq<byte>>, look: Pages.Look)
    ensures Modules(Paged(site, s, visitor, look).routes) == Modules(s.routes)
  {
  }

  lemma IteratedKeepsInv(site: Site, s: Server, input: Input)
    requires Inv(s)
    ensures Inv(Iterated(site, s, input))
  {
    AppliedKeepsInv(site.loads, s);
    FetchedKeepsInv(Applied(site.loads, s), input.fetch);
    PagedKeepsInv(site, Fetched(Applied(site.loads, s), input.fetch), input.visitor, input.page);
    AdministeredKeepsInv(Visited(site, s, input), input.peer, input.look);
  }

  /**
   * In every run prefixes stay distinct, every application has the last feed distributed, the socket set is
   * right, and the accepted uploads are, in order, those taken up and at most one that waits.
   */
  lemma {:induction false} RunKeepsInv(site: Site, s: Server, inputs: seq<Input>)
    requires Inv(s)
    ensures Inv(After(site, s, inputs))
    decreases |inputs|
  {
    if inputs != [] {
      IteratedKeepsInv(site, s, inputs[0]);
      RunKeepsInv(site, Iterated(site, s, inputs[0]), inputs[1..]);
    }
  }

  // ---- which modules are installed ----

  /** The routes without their feeds. */
  function Modules(rs: seq<Route<App>>): (r: seq<Route<seq<byte>>>)
    ensures |r| == |rs| && forall i :: 0 <= i < |rs| ==> r[i] == Route(rs[i].prefix, rs[i].app.code)
  {
    seq(|rs|, i requires 0 <= i < |rs| => Route(rs[i].prefix, rs[i].app.code))
  }

  /** The uploads that load, as insertions. */
  function Loaded(loads: seq<byte> -> bool, us: seq<Upload>): (r: seq<Route<seq<byte>>>)
    decreases |us|
  {
    if us == [] then []
    else
      var u := us[|us| - 1];
      Loaded(loads, us[..|us| - 1]) + if loads(u.bytes) then [Route(u.prefix, u.bytes)] else []
  }

  lemma {:induction false} ModuleIndex(rs: seq<Route<App>>, prefix: seq<byte>)
    ensures RouteIndex(Modules(rs), prefix) == RouteIndex(rs, prefix)
    decreases |rs|
  {
    if rs != [] && rs[0].prefix != prefix {
      assert Modules(rs)[1..] == Modules(rs[1..]);
      ModuleIndex(rs[1..], prefix);
    }
  }

  lemma ModulesInserted(rs: seq<Route<App>>, prefix: seq<byte>, app: App)
    ensures Modules(Inserted(rs, prefix, app)) == Inserted(Modules(rs), prefix, app.code)
  {
    ModuleIndex(rs, prefix);
  }

  /** The modules are those of the start with every upload taken up so far that loads put in, in order. */
  predicate Installed(loads: seq<byte> -> bool, boot: seq<Route<seq<byte>>>, s: Server) {
    Modules(s.routes) == InsertAll(boot, Loaded(loads, s.installs))
  }

  lemma AppliedKeepsInstalled(loads: seq<byte> -> bool, boot: seq<Route<seq<byte>>>, s: Server)
    requires Installed(loads, boot, s)
    ensures Installed(loads, boot, Applied(loads, s))
  {
    var f := FeedApplied(s);
    assert Modules(f.routes) == Modules(s.routes);
    if f.pendingEntry.Some? {
      var u := f.pendingEntry.value;
      var longer := s.installs + [u];
      assert longer[..|s.installs|] == s.installs;
      ModulesInserted(f.routes, u.prefix, App(u.bytes, f.lastFeed, []));
      if loads(u.bytes) {
        InsertAllSnoc(boot, Loaded(loads, s.installs), Route(u.prefix, u.bytes));
      } else {
        assert Loaded(loads, longer) == Loaded(loads, s.installs);
      }
    }
  }

  lemma IteratedKeepsInstalled(site: Site, boot: seq<Route<seq<byte>>>, s: Server, input: Input)
    requires Installed(site.loads, boot, s)
    ensures Installed(site.loads, boot, Iterated(site, s, input))
  {
    if !s.admin.state.Halted? {
      var a := Applied(site.loads, s);
      AppliedKeepsInstalled(site.loads, boot, s);
      PagedKeepsModules(site, Fetched(a, input.fetch), input.visitor, input.page);
      SameModules(site.loads, boot, a, Iterated(site, s, input));
    }
  }

  lemma SameModules(loads: seq<byte> -> bool, boot: seq<Route<seq<byte>>>, s: Server, t: Server)
    requires Modules(t.routes) == Modules(s.routes) && t.installs == s.installs
    ensures Installed(loads, boot, s) ==> Installed(loads, boot, t)
  {
  }

  /** In every run each accepted module that loads is installed exactly once and in order, and no other is. */
  lemma {:induction false} RunInstalls(site: Site, boot: seq<Route<seq<byte>>>, s: Server,
      inputs: seq<Input>)
    requires Installed(site.loads, boot, s)
    ensures Installed(site.loads, boot, After(site, s, inputs))
    decreases |inputs|
  {
    if inputs != [] {
      IteratedKeepsInstalled(site, boot, s, inputs[0]);
      RunInstalls(site, boot, Iterated(site, s, inputs[0]), inputs[1..]);
    }
  }

  // ---- one connection, one upload ----

  function LooksOf(inputs: seq<Input>): (ls: seq<Admin.Look>)
    ensures |ls| == |inputs| && forall i :: 0 <= i < |inputs| ==> ls[i] == inputs[i].look
  {
    seq(|inputs|, i requires 0 <= i < |inputs| => inputs[i].look)
  }

  predicate NoNewPeer(inputs: seq<Input>) {
    forall i :: 0 <= i < |inputs| ==> inputs[i].peer.None?
  }

  function AcceptedOne(o: Admin.Outcome): (us: seq<Upload>) {
    if o.Accepted? then [Upload(o.prefix, o.bytes)] else []
  }

  /** The answers that accept something, as uploads. */
  function AcceptedIn(os: seq<Admin.Outcome>): (us: seq<Upload>) {
    if os == [] then [] else AcceptedOne(os[0]) + AcceptedIn(os[1..])
  }

  function WritesOf(us: seq<Upload>): (ws: seq<Write>) {
    if us == [] then [] else [Write(StoreKey(us[0].prefix), us[0].bytes)] + WritesOf(us[1..])
  }

  lemma {:induction false} WritesAppend(us: seq<Upload>, vs: seq<Upload>)
    ensures WritesOf(us + vs) == WritesOf(us) + WritesOf(vs)
    decreases |us|
  {
    if us == [] {
      assert us + vs == vs;
    } else {
      assert (us + vs)[1..] == us[1..] + vs;
      WritesAppend(us[1..], vs);
    }
  }

  lemma VisitedKeeps(site: Site, s: Server, input: Input)
    ensures var v := Visited(site, s, input);
      v.admin == s.admin && v.answers == s.answers && v.uploads == s.uploads && v.writes == s.writes
  {
  }

  lemma TurnUploads(site: Site, s: Server, input: Input)
    requires input.peer.None?
    ensures var t, r := Admin.Turn(s.admin, input.look), Iterated(site, s, input);
      && r.admin == t.next && r.answers == s.answers + Spoken(t.outcome)
      && r.uploads == s.uploads + AcceptedOne(t.outcome) && r.writes == s.writes + WritesOf(AcceptedOne(t.outcome))
  {
    VisitedKeeps(site, s, input);
    if !s.admin.state.Halted? {
      AdministeredUploads(Visited(site, s, input), input.look);
    } else {
      assert s.uploads + [] == s.uploads && s.writes + [] == s.writes && s.answers + [] == s.answers;
    }
  }

  lemma AdministeredUploads(v: Server, look: Admin.Look)
    ensures var t, r := Admin.Turn(v.admin, look), Administered(v, None, look);
      && r.admin == t.next && r.answers == v.answers + Spoken(t.outcome)
      && r.uploads == v.uploads + AcceptedOne(t.outcome) && r.writes == v.writes + WritesOf(AcceptedOne(t.outcome))
  {
    assert v.uploads + [] == v.uploads && v.writes + [] == v.writes;
  }

  /** The answers given over a run are those of the endpoint by itself. */
  lemma {:induction false} AnswersFollow(site: Site, s: Server, inputs: seq<Input>)
    requires NoNewPeer(inputs)
    ensures After(site, s, inputs).answers == s.answers + Admin.Outcomes(s.admin, LooksOf(inputs))
    decreases |inputs|
  {
    if inputs == [] {
      assert s.answers + [] == s.answers;
    } else {
      var t := Admin.Turn(s.admin, inputs[0].look);
      TurnUploads(site, s, inputs[0]);
      AnswersFollow(site, Iterated(site, s, inputs[0]), inputs[1..]);
      assert LooksOf(inputs)[1..] == LooksOf(inputs[1..]);
      Assoc(s.answers, Spoken(t.outcome), Admin.Outcomes(t.next, LooksOf(inputs[1..])));
    }
  }

  lemma OutcomesNext(e: Admin.Endpoint, looks: seq<Admin.Look>)
    requires looks != []
    ensures var t := Admin.Turn(e, looks[0]);
      AcceptedIn(Admin.Outcomes(e, looks)) == AcceptedOne(t.outcome) + AcceptedIn(Admin.Outcomes(t.next, looks[1..]))
  {
    var t := Admin.Turn(e, looks[0]);
    var later := Admin.Outcomes(t.next, looks[1..]);
    if t.outcome == Admin.Nothing {
      assert [] + later == later && [] + AcceptedIn(later) == AcceptedIn(later);
    } else {
      assert ([t.outcome] + later)[1..] == later;
    }
  }

  /** What is accepted and stored over a run depends on the endpoint alone, not on the rest of the loop. */
  lemma {:induction false} UploadsFollow(site: Site, s: Server, inputs: seq<Input>, us: seq<Upload>)
    requires NoNewPeer(inputs) && us == AcceptedIn(Admin.Outcomes(s.admin, LooksOf(inputs)))
    ensures After(site, s, inputs).uploads == s.uploads + us
    ensures After(site, s, inputs).writes == s.writes + WritesOf(us)
    decreases |inputs|
  {
    if inputs == [] {
      assert s.uploads + [] == s.uploads && s.writes + [] == s.writes;
    } else {
      var t := Admin.Turn(s.admin, inputs[0].look);
      var now, later := AcceptedOne(t.outcome), AcceptedIn(Admin.Outcomes(t.next, LooksOf(inputs[1..])));
      FirstTurn(s.admin, inputs, us, now, later);
      TurnUploads(site, s, inputs[0]);
      UploadsFollow(site, Iterated(site, s, inputs[0]), inputs[1..], later);
      Assoc(s.uploads, now, later);
      Assoc(s.writes, WritesOf(now), WritesOf(later));
    }
  }

  lemma FirstTurn(e: Admin.Endpoint, inputs: seq<Input>, us: seq<Upload>, now: seq<Upload>, later: seq<Upload>)
    requires inputs != [] && us == AcceptedIn(Admin.Outcomes(e, LooksOf(inputs)))
    requires var t := Admin.Turn(e, inputs[0].look);
      now == AcceptedOne(t.outcome) && later == AcceptedIn(Admin.Outcomes(t.next, LooksOf(inputs[1..])))
    ensures us == now + later && WritesOf(us) == WritesOf(now) + WritesOf(later)
  {
    assert LooksOf(inputs)[1..] == LooksOf(inputs[1..]);
    OutcomesNext(e, LooksOf(inputs));
    WritesAppend(now, later);
  }

  /** One upload that fits makes one store write and one install request; anything else makes neither. */
  lemma OneUpload(site: Site, s: Server, inputs: seq<Input>, stream: seq<byte>)
    requires s.admin == Admin.Endpoint(Admin.Idle, stream) && Admin.IsRequest(stream) && Admin.Last(stream)
    requires NoNewPeer(inputs) && Admin.AllOpen(LooksOf(inputs)) && Admin.CountBusy(LooksOf(inputs)) >= |stream| + 2
    ensures var us := AcceptedOne(Admin.Expected(stream));
      && After(site, s, inputs).answers == s.answers + [Admin.Expected(stream)]
      && After(site, s, inputs).uploads == s.uploads + us
      && After(site, s, inputs).writes == s.writes + WritesOf(us)
  {
    var o := Admin.Expected(stream);
    Admin.ChunksDoNotMatter(stream, LooksOf(inputs));
    OneAccepted(o);
    AnswersFollow(site, s, inputs);
    UploadsFollow(site, s, inputs, AcceptedOne(o));
  }

  /** A module is stored under the name behind the slash of its prefix, or as app if there is none or it is no text. */
  lemma KeyRead(name: seq<byte>)
    ensures StoreKey(Ascii("/") + name) ==
            (if name != [] && Utf8.Valid(name) then name else Ascii("app")) + Ascii(".wasm")
  {
    KeyTexts();
    KeyOf([47] + name, name);
  }

  lemma KeyOf(prefix: seq<byte>, name: seq<byte>)
    requires prefix == [47] + name
    ensures StoreKey(prefix) ==
            (if name != [] && Utf8.Valid(name) then name else [97, 112, 112]) + [46, 119, 97, 115, 109]
  {
    assert prefix[1..] == name;
    assert prefix == [47] <==> name == [];
  }

  lemma KeyTexts()
    ensures Ascii("/") == [47] && Ascii("app") == [97, 112, 112] && Ascii(".wasm") == [46, 119, 97, 115, 109]
  {
  }

  /** The request of an upload to /update/<name>. */
  lemma NamedUpload(name: seq<byte>, version: seq<byte>, lines: seq<seq<byte>>, k: nat, left: seq<nat>,
      number: seq<byte>, right: seq<nat>, total: nat, rest: seq<byte>, stream: seq<byte>)
    requires Admin.UploadHead(Ascii("/update/") + name, version, lines, k, left, number, right, total)
    requires Admin.Whole(lines, k) && Utf8.Valid(Http.JoinLines(lines)) && total <= |rest| && total <= 524288
    requires stream == Http.JoinLines(lines) + Http.BLANK_LINE + rest && Http.HeaderEnd(rest[total..]).None?
    ensures Admin.IsRequest(stream) && Admin.Last(stream)
    ensures Admin.Expected(stream) == Admin.Accepted(Ascii("/") + name, rest[..total])
  {
    Admin.UploadUnderstood(Ascii("/update/") + name, version, lines, k, left, number, right, total, rest);
    UpdateName(name);
    Admin.AcceptedSurplus(stream, Ascii("/") + name, rest[..total]);
  }

  lemma PersistedOnce(site: Site, s: Server, inputs: seq<Input>, stream: seq<byte>, name: seq<byte>, data: seq<byte>)
    requires s.admin == Admin.Endpoint(Admin.Idle, stream) && Admin.IsRequest(stream) && Admin.Last(stream)
    requires NoNewPeer(inputs) && Admin.AllOpen(LooksOf(inputs)) && Admin.CountBusy(LooksOf(inputs)) >= |stream| + 2
    requires Admin.Expected(stream) == Admin.Accepted(Ascii("/") + name, data) && name != [] && Utf8.Valid(name)
    ensures After(site, s, inputs).uploads == s.uploads + [Upload(Ascii("/") + name, data)]
    ensures After(site, s, inputs).writes == s.writes + [Write(name + Ascii(".wasm"), data)]
  {
    OneUpload(site, s, inputs, stream);
    KeyRead(name);
    OneWrite(Upload(Ascii("/") + name, data));
  }

  /**
   * From the bytes a client sends to the store: an upload to /update/<name> writes its module, once, under the name
   * with .wasm behind it, and has it installed under /<name>, whatever else the loop does meanwhile.
   */
  lemma UploadPersisted(site: Site, s: Server, inputs: seq<Input>, name: seq<byte>, version: seq<byte>,
      lines: seq<seq<byte>>, k: nat, left: seq<nat>, number: seq<byte>, right: seq<nat>, total: nat, rest: seq<byte>,
      stream: seq<byte>)
    requires Admin.UploadHead(Ascii("/update/") + name, version, lines, k, left, number, right, total)
    requires Admin.Whole(lines, k) && Utf8.Valid(Http.JoinLines(lines)) && total <= |rest| && total <= 524288
    requires stream == Http.JoinLines(lines) + Http.BLANK_LINE + rest && Http.HeaderEnd(rest[total..]).None?
    requires s.admin == Admin.Endpoint(Admin.Idle, stream) && name != [] && Utf8.Valid(name)
    requires NoNewPeer(inputs) && Admin.AllOpen(LooksOf(inputs)) && Admin.CountBusy(LooksOf(inputs)) >= |stream| + 2
    ensures After(site, s, inputs).uploads == s.uploads + [Upload(Ascii("/") + name, rest[..total])]
    ensures After(site, s, inputs).writes == s.writes + [Write(name + Ascii(".wasm"), rest[..total])]
  {
    NamedUpload(name, version, lines, k, left, number, right, total, rest, stream);
    PersistedOnce(site, s, inputs, stream, name, rest[..total]);
  }

  lemma UpdateName(name: seq<byte>)
    ensures Ascii("/update/") + name == Ascii("/update") + (Ascii("/") + name)
  {
  }

  lemma OneWrite(u: Upload)
    ensures WritesOf([u]) == [Write(StoreKey(u.prefix), u.bytes)]
  {
    assert [u][1..] == [];
  }

  lemma OneAccepted(o: Admin.Outcome)
    ensures AcceptedIn([o]) == AcceptedOne(o)
  {
    assert [o][1..] == [] && AcceptedOne(o) + [] == AcceptedOne(o);
  }

  // ---- one visitor, one page ----

  /**
   * The new call of the application that is routed to, if no static file has the path: what is behind the prefix, or
   * the root if that is nothing, is the path the application sees.
   */
  lemma AnsweredOnce(site: Site, rs: seq<Route<App>>, req: Http.Request, r: Route<App>, rest: seq<byte>)
    requires Distinct(rs) && (forall f :: f in site.statics ==> f.path != req.path)
    requires Routed(rs, req.path) == Some(r) && req.path == r.prefix + rest
    ensures var (response, rs') := Answered(site, rs, req);
      var call := Call(r.app.feed, req.verb, if rest == [] then Ascii("/") else rest, req.body);
      && response == (match site.answers(r.app, call) case Some(a) => a case None => Fallback())
      && Lookup(rs', r.prefix) == Some(r.app.(calls := r.app.calls + [call]))
      && forall q :: q != r.prefix ==> Lookup(rs', q) == Lookup(rs, q)
  {
    var b := Best(rs, req.path, |rs|).value;
    var call := Call(r.app.feed, req.verb, if rest == [] then Ascii("/") else rest, req.body);
    BelowIs(r.prefix, rest);
    IndexUnique(rs, b);
    assert Answered(site, rs, req).1 == Inserted(rs, r.prefix, r.app.(calls := r.app.calls + [call]));
    forall q: seq<byte> ensures Lookup(Answered(site, rs, req).1, q)
        == if q == r.prefix then Some(r.app.(calls := r.app.calls + [call])) else Lookup(rs, q)
    {
      InsertedLookup(rs, r.prefix, r.app.(calls := r.app.calls + [call]), q);
    }
  }

  lemma BelowIs(prefix: seq<byte>, rest: seq<byte>)
    ensures Below(prefix + rest, |prefix|) == if rest == [] then Ascii("/") else rest
  {
    assert (prefix + rest)[|prefix|..] == rest;
  }

  /** With no application and no file for the path the fallback is the answer, and nothing changes. */
  lemma NobodyAnswers(site: Site, rs: seq<Route<App>>, req: Http.Request)
    requires (forall f :: f in site.statics ==> f.path != req.path) && Routed(rs, req.path) == None
    ensures Answered(site, rs, req) == (Fallback(), rs)
  {
  }

  // ---- static files ----

  /** The lines of the head of a static file's response. */
  function StaticLines(f: Static): (lines: seq<seq<byte>>) {
    [Ascii("HTTP/1.1 200 OK"),
     Ascii("Content-Type: ") + (if Utf8.Valid(f.ctype) then f.ctype else Ascii("text/html")),
     Ascii("Content-Length: ") + Decimal.Digits(|f.content|),
     Ascii("Connection: close")]
  }

  lemma FirstText()
    ensures Ascii(STATIC_HEAD) == Ascii("HTTP/1.1 200 OK") + [13, 10] + Ascii("Content-Type: ")
  {
  }

  lemma MiddleText()
    ensures Ascii(STATIC_LENGTH) == [13, 10] + Ascii("Content-Length: ")
  {
  }

  lemma EndText()
    ensures Ascii(STATIC_END) == [13, 10] + Ascii("Connection: close") + [13, 10, 13, 10]
  {
  }

  lemma FourLines(a: seq<byte>, b: seq<byte>, c: seq<byte>, d: seq<byte>)
    ensures Http.JoinLines([a, b, c, d]) == a + [13, 10] + (b + [13, 10] + (c + [13, 10] + d))
  {
    assert [a, b, c, d][1..] == [b, c, d];
    Admin.ThreeLines(b, c, d);
  }

  lemma HeadJoined(a: seq<byte>, k: seq<byte>, t: seq<byte>, l: seq<byte>, n: seq<byte>, d: seq<byte>, x: seq<byte>)
    ensures (a + [13, 10] + k) + t + ([13, 10] + l) + n + ([13, 10] + d + [13, 10, 13, 10]) + x
         == (a + [13, 10] + ((k + t) + [13, 10] + ((l + n) + [13, 10] + d))) + [13, 10, 13, 10] + x
  {
  }

  lemma StaticText(f: Static)
    ensures StaticResponse(f) == Http.JoinLines(StaticLines(f)) + Http.BLANK_LINE + f.content
  {
    var t := if Utf8.Valid(f.ctype) then f.ctype else Ascii("text/html");
    FirstText();
    MiddleText();
    EndText();
    FourLines(Ascii("HTTP/1.1 200 OK"), Ascii("Content-Type: ") + t,
              Ascii("Content-Length: ") + Decimal.Digits(|f.content|), Ascii("Connection: close"));
    HeadJoined(Ascii("HTTP/1.1 200 OK"), Ascii("Content-Type: "), t, Ascii("Content-Length: "),
               Decimal.Digits(|f.content|), Ascii("Connection: close"), f.content);
  }

  /**
   * The first static file with exactly the path of the request is the answer, and no application sees the request: a
   * head of four lines that gives the length of the content, and the content.
   */
  lemma StaticServed(site: Site, rs: seq<Route<App>>, req: Http.Request, i: nat)
    requires i < |site.statics| && site.statics[i].path == req.path && Http.CR !in site.statics[i].ctype
    requires forall k :: 0 <= k < i ==> site.statics[k].path != req.path
    ensures var f, (response, rs') := site.statics[i], Answered(site, rs, req);
      && rs' == rs && Http.HeaderEnd(response).Some?
      && var n := Http.HeaderEnd(response).value;
         Http.Lines(response[..n]) == StaticLines(f) && response[n + 4..] == f.content
  {
    assert StaticIndex(site.statics, req.path) == i;
    StaticParts(site.statics[i]);
  }

  lemma StaticParts(f: Static)
    requires Http.CR !in f.ctype
    ensures Http.HeaderEnd(StaticResponse(f)).Some?
    ensures var n := Http.HeaderEnd(StaticResponse(f)).value;
      Http.Lines(StaticResponse(f)[..n]) == StaticLines(f) && StaticResponse(f)[n + 4..] == f.content
  {
    StaticText(f);
    NoReturns(f);
    HeadAndBody(StaticLines(f), f.content);
  }

  lemma HeadAndBody(lines: seq<seq<byte>>, body: seq<byte>)
    requires Admin.HeadLines(lines)
    ensures var r, n := Http.JoinLines(lines) + Http.BLANK_LINE + body, |Http.JoinLines(lines)|;
      Http.HeaderEnd(r) == Some(n) && Http.Lines(r[..n]) == lines && r[n + 4..] == body
  {
    var head := Http.JoinLines(lines);
    Admin.HeadEnds(lines, body);
    Admin.HeadOf(lines);
    assert (head + Http.BLANK_LINE + body)[..|head|] == head && (head + Http.BLANK_LINE + body)[|head| + 4..] == body;
  }

  lemma NoReturns(f: Static)
    requires Http.CR !in f.ctype
    ensures Admin.HeadLines(StaticLines(f))
  {
    assert Http.CR !in Ascii("HTTP/1.1 200 OK") && Http.CR !in Ascii("Content-Type: ");
    assert Http.CR !in Ascii("text/html");
    assert Http.CR !in Ascii("Content-Length: ") && Http.CR !in Ascii("Connection: close");
    assert Http.CR !in Decimal.Digits(|f.content|);
  }

  function PageLooks(inputs: seq<Input>): (ls: seq<Pages.Look>)
    ensures |ls| == |inputs| && forall i :: 0 <= i < |inputs| ==> ls[i] == inputs[i].page
  {
    seq(|inputs|, i requires 0 <= i < |inputs| => inputs[i].page)
  }

  predicate NoNewVisitor(inputs: seq<Input>) {
    forall i :: 0 <= i < |inputs| ==> inputs[i].visitor.None?
  }

  /** In no turn has the kernel stopped. */
  predicate Running(site: Site, s: Server, inputs: seq<Input>)
    decreases |inputs|
  {
    !s.admin.state.Halted? && (inputs == [] || Running(site, Iterated(site, s, inputs[0]), inputs[1..]))
  }

  /** A response to the request that the applications there are in turn k give, feed and pending module taken up. */
  predicate RespondsAt(site: Site, s: Server, inputs: seq<Input>, k: nat, response: seq<byte>, req: Http.Request) {
    && k < |inputs|
    && response == Answered(site, Applied(site.loads, After(site, s, inputs[..k])).routes, req).0
  }

  ghost predicate RespondsTo(site: Site, s: Server, inputs: seq<Input>, response: seq<byte>, req: Http.Request) {
    exists k: nat :: RespondsAt(site, s, inputs, k, response, req)
  }

  ghost predicate Responds(site: Site, s: Server, inputs: seq<Input>, responses: seq<seq<byte>>,
      reqs: seq<Http.Request>)
  {
    |responses| == |reqs| && forall i :: 0 <= i < |reqs| ==> RespondsTo(site, s, inputs, responses[i], reqs[i])
  }

  function AskedNow(t: Pages.Turned): (reqs: seq<Http.Request>) {
    if t.asked.Some? then [t.asked.value] else []
  }

  lemma TurnShows(site: Site, s: Server, inputs: seq<Input>) returns (now: seq<seq<byte>>)
    requires inputs != [] && inputs[0].visitor.None? && !s.admin.state.Halted?
    ensures var t, r := Pages.Turn(s.page, inputs[0].page), Iterated(site, s, inputs[0]);
      r.page == t.next && r.shown == s.shown + now && Responds(site, s, inputs, now, AskedNow(t))
  {
    var f := Fetched(Applied(site.loads, s), inputs[0].fetch);
    var t := Pages.Turn(s.page, inputs[0].page);
    now := PageShown(site, f, inputs[0].page);
    assert f.page == s.page && f.shown == s.shown && f.routes == Applied(site.loads, s).routes;
    if t.asked.Some? {
      assert inputs[..0] == [];
      assert RespondsAt(site, s, inputs, 0, now[0], t.asked.value);
    }
  }

  /** A turn changes the applications just as answering its request does, if it comes to one. */
  lemma TurnCalls(site: Site, s: Server, input: Input)
    requires input.visitor.None? && !s.admin.state.Halted?
    ensures var asked, rs := Pages.Turn(s.page, input.page).asked, Applied(site.loads, s).routes;
      Iterated(site, s, input).routes == if asked.Some? then Answered(site, rs, asked.value).1 else rs
  {
  }

  lemma PageShown(site: Site, f: Server, look: Pages.Look) returns (now: seq<seq<byte>>)
    ensures var t, r := Pages.Turn(f.page, look), Paged(site, f, None, look);
      && r.page == t.next && r.shown == f.shown + now
      && now == if t.asked.Some? then [Answered(site, f.routes, t.asked.value).0] else []
  {
    var t := Pages.Turn(f.page, look);
    now := if t.asked.Some? then [Answered(site, f.routes, t.asked.value).0] else [];
    assert f.shown + [] == f.shown;
  }

  lemma RespondsLater(site: Site, s: Server, inputs: seq<Input>, response: seq<byte>, req: Http.Request)
    requires inputs != [] && RespondsTo(site, Iterated(site, s, inputs[0]), inputs[1..], response, req)
    ensures RespondsTo(site, s, inputs, response, req)
  {
    var k: nat :| RespondsAt(site, Iterated(site, s, inputs[0]), inputs[1..], k, response, req);
    assert inputs[..k + 1][0] == inputs[0] && inputs[..k + 1][1..] == inputs[1..][..k];
    assert RespondsAt(site, s, inputs, k + 1, response, req);
  }

  lemma AllLater(site: Site, s: Server, inputs: seq<Input>, responses: seq<seq<byte>>, reqs: seq<Http.Request>)
    requires inputs != [] && Responds(site, Iterated(site, s, inputs[0]), inputs[1..], responses, reqs)
    ensures Responds(site, s, inputs, responses, reqs)
  {
    var next, rest := Iterated(site, s, inputs[0]), inputs[1..];
    forall i | 0 <= i < |reqs| ensures RespondsTo(site, s, inputs, responses[i], reqs[i]) {
      assert RespondsTo(site, next, rest, responses[i], reqs[i]);
      RespondsLater(site, s, inputs, responses[i], reqs[i]);
    }
  }

  lemma RespondsBoth(site: Site, s: Server, inputs: seq<Input>, now: seq<seq<byte>>, later: seq<seq<byte>>,
      a: seq<Http.Request>, b: seq<Http.Request>)
    requires Responds(site, s, inputs, now, a) && Responds(site, s, inputs, later, b)
    ensures Responds(site, s, inputs, now + later, a + b)
  {
  }

  /**
   * The responses on port 80 over a run are, one for one and in order, to the requests the endpoint by itself comes
   * to, each from the applications there were in the turn it was given.
   */
  lemma {:induction false} ShownFollow(site: Site, s: Server, inputs: seq<Input>) returns (all: seq<seq<byte>>)
    requires NoNewVisitor(inputs) && Running(site, s, inputs)
    ensures After(site, s, inputs).shown == s.shown + all
    ensures Responds(site, s, inputs, all, Pages.Asked(s.page, PageLooks(inputs)))
    decreases |inputs|
  {
    if inputs == [] {
      all := [];
      assert s.shown + [] == s.shown;
    } else {
      var t := Pages.Turn(s.page, inputs[0].page);
      var now := TurnShows(site, s, inputs);
      var later := ShownFollow(site, Iterated(site, s, inputs[0]), inputs[1..]);
      all := now + later;
      assert PageLooks(inputs)[1..] == PageLooks(inputs[1..]);
      AllLater(site, s, inputs, later, Pages.Asked(t.next, PageLooks(inputs[1..])));
      RespondsBoth(site, s, inputs, now, later, AskedNow(t), Pages.Asked(t.next, PageLooks(inputs[1..])));
      Assoc(s.shown, now, later);
    }
  }

  /** One visitor whose request is complete gets exactly one response, to that request with some part of its body. */
  lemma OnePage(site: Site, s: Server, inputs: seq<Input>, stream: seq<byte>)
    requires s.page == Pages.Page([], false, stream) && Http.HeaderEnd(stream).Some?
    requires NoNewVisitor(inputs) && Running(site, s, inputs)
    requires Pages.AllOpen(PageLooks(inputs)) && Pages.CountBusy(PageLooks(inputs)) > |stream|
    ensures exists response, req ::
      After(site, s, inputs).shown == s.shown + [response] && Pages.AsksOnce(stream, [req])
      && RespondsTo(site, s, inputs, response, req)
  {
    Pages.HandedOverOnce(stream, PageLooks(inputs));
    var reqs := Pages.Asked(s.page, PageLooks(inputs));
    var all := ShownFollow(site, s, inputs);
    assert all == [all[0]] && reqs == [reqs[0]];
    assert After(site, s, inputs).shown == s.shown + [all[0]] && Pages.AsksOnce(stream, [reqs[0]])
      && RespondsTo(site, s, inputs, all[0], reqs[0]);
  }

  // ---- a feed reaches the applications ----

  function FetchLooks(inputs: seq<Input>): (ls: seq<Fetch.Look>)
    ensures |ls| == |inputs| && forall i :: 0 <= i < |inputs| ==> ls[i] == inputs[i].fetch
  {
    seq(|inputs|, i requires 0 <= i < |inputs| => inputs[i].fetch)
  }

  lemma TurnFetches(site: Site, s: Server, input: Input)
    requires !s.admin.state.Halted?
    ensures var t, r := Fetch.Turn(s.fetch, s.slots, input.fetch), Iterated(site, s, input);
      r.fetch == t.state && r.slots == t.slots && r.pendingFeed == t.feed
  {
  }

  /** The feed that a fetch hands over is the one that is pending when it ends, whatever the rest of the loop does. */
  lemma {:induction false} FeedPends(site: Site, s: Server, inputs: seq<Input>, feed: Option<seq<byte>>)
    requires Running(site, s, inputs) && Fetch.Completes(s.fetch, s.slots, FetchLooks(inputs), feed)
    ensures After(site, s, inputs).pendingFeed == feed
    decreases |inputs|
  {
    TurnFetches(site, s, inputs[0]);
    assert FetchLooks(inputs)[1..] == FetchLooks(inputs[1..]);
    if |inputs| > 1 {
      FeedPends(site, Iterated(site, s, inputs[0]), inputs[1..], feed);
    }
  }

  lemma FeedGiven(site: Site, s: Server, input: Input)
    requires Inv(s) && !s.admin.state.Halted? && s.pendingFeed.Some?
    ensures var r := Iterated(site, s, input); r.lastFeed == s.pendingFeed.value && Fed(r.routes, s.pendingFeed.value)
  {
    IteratedKeepsInv(site, s, input);
  }

  lemma {:induction false} OneMoreTurn(site: Site, s: Server, inputs: seq<Input>, input: Input)
    requires Running(site, s, inputs + [input])
    ensures Running(site, s, inputs) && !After(site, s, inputs).admin.state.Halted?
    ensures After(site, s, inputs + [input]) == Iterated(site, After(site, s, inputs), input)
    decreases |inputs|
  {
    if inputs == [] {
      assert inputs + [input] == [input] && [input][1..] == [];
    } else {
      assert (inputs + [input])[1..] == inputs[1..] + [input];
      OneMoreTurn(site, Iterated(site, s, inputs[0]), inputs[1..], input);
    }
  }

  /**
   * A fetch that is due, connects within its patience and receives a response below the size limit gives every
   * application the body of that response in the turn after.
   */
  lemma FeedReachesAll(site: Site, s: Server, inputs: seq<Input>, after: Input, due: Fetch.Look, waits: seq<Fetch.Look>,
      go: Fetch.Look, looks: seq<Fetch.Look>, head: seq<byte>, body: seq<byte>)
    requires Inv(s) && s.fetch.Idle? && Running(site, s, inputs + [after])
    requires FetchLooks(inputs) == [due] + (waits + ([go] + looks)) && due.now >= s.fetch.nextTs && due.connects
    requires Fetch.StillConnecting(waits) && |waits| <= 200_001 && go.maySend
    requires Fetch.Sends(looks) && |looks| <= 500_000
    requires Fetch.Arrived(looks) == head + Ascii("\r\n\r\n") + body && |Fetch.Arrived(looks)| < 262144 && body != []
    requires forall q :: 0 <= q < |head| ==> !At(head + Http.BLANK_LINE + body, q, Http.BLANK_LINE)
    ensures var r := After(site, s, inputs + [after]);
      r.lastFeed == body && forall i :: 0 <= i < |r.routes| ==> r.routes[i].app.feed == body
  {
    Fetch.WholeFetch(s.fetch.nextTs, s.slots, due, waits, go, looks);
    Fetch.FeedRead(head, body);
    OneMoreTurn(site, s, inputs, after);
    FeedPends(site, s, inputs, Some(body));
    RunKeepsInv(site, s, inputs);
    FeedGiven(site, After(site, s, inputs), after);
  }

  // ---- the loop itself ----

  class HttpServer {
    const site: Site
    const router: WasmRouter<App>
    var fetch: Fetch.State
    var slots: seq<bool>
    var pendingFeed: Option<seq<byte>>
    var lastFeed: seq<byte>
    var pendingEntry: Option<Upload>
    var page: Pages.Page
    var shown: seq<seq<byte>>
    var admin: Admin.Endpoint
    var answers: seq<Admin.Outcome>
    var writes: seq<Write>
    ghost var uploads: seq<Upload>
    ghost var installs: seq<Upload>

    ghost function State(): (s: Server)
      reads this, router
    {
      Server(router.entries, fetch, slots, pendingFeed, lastFeed, pendingEntry, page, shown, admin, answers, writes,
             uploads, installs)
    }

    /** Boot: the modules found at start are registered, nothing is pending, the first fetch is due at once. */
    constructor (boot: seq<Route<seq<byte>>>, site: Site)
      ensures this.site == site && fresh(router)
      ensures Inv(State()) && Modules(State().routes) == InsertAll([], boot)
      ensures Installed(site.loads, InsertAll([], boot), State())
    {
      this.site := site;
      router := new WasmRouter();
      fetch, slots := Fetch.Idle(0), [true, true];
      pendingFeed, lastFeed, pendingEntry := None, [], None;
      page, shown := Pages.Page([], false, []), [];
      admin, answers, writes, uploads, installs := Admin.Endpoint(Admin.Idle, []), [], [], [], [];
      new;
      Register(router, boot);
    }

    static method Register(router: WasmRouter<App>, boot: seq<Route<seq<byte>>>)
      requires router.entries == []
      modifies router
      ensures Distinct(router.entries) && Fed(router.entries, []) && Modules(router.entries) == InsertAll([], boot)
    {
      var i := 0;
      assert boot[..0] == [] && Modules([]) == [];
      while i < |boot|
        invariant i <= |boot| && Distinct(router.entries) && Fed(router.entries, [])
        invariant Modules(router.entries) == InsertAll([], boot[..i])
      {
        var app := App(boot[i].app, [], []);
        assert boot[..i + 1] == boot[..i] + [Route(boot[i].prefix, boot[i].app)];
        InsertAllSnoc([], boot[..i], Route(boot[i].prefix, boot[i].app));
        ModulesInserted(router.entries, boot[i].prefix, app);
        InsertedDistinct(router.entries, boot[i].prefix, app);
        router.Insert(boot[i].prefix, app);
        i := i + 1;
      }
      assert boot[..|boot|] == boot;
    }

    /** Distribute a fetched feed, then swap in a pending module. */
    method ApplyPending()
      modifies this`pendingFeed, this`lastFeed, this`pendingEntry, this`installs, router
      ensures State() == Applied(site.loads, old(State()))
    {
      if pendingFeed.Some? {
        var feed := pendingFeed.value;
        pendingFeed, lastFeed := None, feed;
        UpdateFeeds(feed);
      }
      if pendingEntry.Some? {
        var u := pendingEntry.value;
        pendingEntry := None;
        installs := installs + [u];
        if site.loads(u.bytes) {
          var app := App(u.bytes, [], []);
          if lastFeed != [] {
            app := app.(feed := lastFeed);
          }
          router.Insert(u.prefix, app);
        }
      }
    }

    method UpdateFeeds(feed: seq<byte>)
      modifies router
      ensures router.entries == GivenFeed(old(router.entries), feed)
    {
      var i := 0;
      while i < |router.entries|
        invariant i <= |router.entries| == |old(router.entries)|
        invariant forall k :: 0 <= k < i ==> router.entries[k] == GivenFeed(old(router.entries), feed)[k]
        invariant forall k :: i <= k < |router.entries| ==> router.entries[k] == old(router.entries)[k]
      {
        var r := router.entries[i];
        router.entries := router.entries[i := Route(r.prefix, r.app.(feed := feed))];
        i := i + 1;
      }
    }

    /** One turn of the fetch. */
    method FetchTurn(look: Fetch.Look)
      modifies this`fetch, this`slots, this`pendingFeed
      ensures State() == Fetched(old(State()), look)
    {
      match fetch {
        case Idle(nextTs) =>
          if look.now >= nextTs {
            if look.connects {
              fetch := Fetch.Connecting(Fetch.FreeSlot(slots), 0);
              slots := Fetch.Added(slots);
            } else {
              fetch := Fetch.Idle(look.now + Fetch.FEED_INTERVAL);
            }
          }
        case Connecting(h, idle) =>
          if look.maySend {
            fetch := Fetch.Receiving(h, [], 0);
          } else if !look.isOpen || idle > Fetch.MAX_IDLE {
            slots := Fetch.Removed(slots, h);
            fetch := Fetch.Idle(look.now + Fetch.FEED_INTERVAL);
          } else {
            fetch := Fetch.Connecting(h, idle + 1);
          }
        case Receiving(h, buf, stale) =>
          var all := Drain(buf, look.chunks);
          var quiet := if |all| > |buf| then 0 else stale + 1;
          if !look.mayRecv || quiet > Fetch.MAX_STALE || |all| >= Fetch.FEED_MAX_SIZE {
            slots := Fetch.Removed(slots, h);
            var feed := Fetch.FeedIn(all);
            if feed.Some? {
              pendingFeed := feed;
            }
            fetch := Fetch.Idle(look.now + Fetch.FEED_INTERVAL);
          } else {
            fetch := Fetch.Receiving(h, all, quiet);
          }
      }
    }

    /** Receive until there is nothing more or the buffer is full. */
    static method Drain(buf: seq<byte>, chunks: seq<seq<byte>>) returns (all: seq<byte>)
      ensures all == Fetch.Drained(buf, chunks)
    {
      all := buf;
      var i := 0;
      assert chunks[0..] == chunks;
      while i < |chunks| && |all| < Fetch.FEED_MAX_SIZE
        invariant i <= |chunks| && Fetch.Drained(all, chunks[i..]) == Fetch.Drained(buf, chunks)
      {
        var n := Min(Fetch.FETCH_CHUNK, |chunks[i]|);
        if n == 0 {
          return;
        }
        assert chunks[i..][1..] == chunks[i + 1..];
        all := all + chunks[i][..n];
        i := i + 1;
      }
    }

    /** One turn of the page endpoint. */
    method PageTurn(visitor: Option<seq<byte>>, look: Pages.Look)
      modifies this`page, this`shown, router
      ensures State() == Paged(site, old(State()), visitor, look)
    {
      if visitor.Some? {
        page := page.(incoming := visitor.value);
      }
      if !look.open {
        page := Pages.Page([], false, page.incoming);
      }
      if look.mayRecv && !page.sent {
        var chunk := Admin.Chunk(page.incoming, look.size, Pages.PAGE_CHUNK);
        var buf, rest := page.buf + chunk, page.incoming[|chunk|..];
        var end := Http.FindHeaderEnd(buf);
        if end.Some? {
          var response := Answer(Http.ParseHttp(buf));
          shown := shown + [response];
        }
        page := Pages.Page(buf, end.Some?, rest);
      }
    }

    /** The response to a request, from a static file or an application. */
    method Answer(req: Http.Request) returns (response: seq<byte>)
      modifies router
      ensures (response, router.entries) == Answered(site, old(router.entries), req)
    {
      var i := FindStatic(site.statics, req.path);
      if i < |site.statics| {
        return StaticResponse(site.statics[i]);
      }
      response := Ask(req);
    }

    static method FindStatic(statics: seq<Static>, path: seq<byte>) returns (i: nat)
      ensures i == StaticIndex(statics, path)
    {
      i := 0;
      assert statics[0..] == statics;
      while i < |statics| && statics[i].path != path
        invariant i <= |statics| && StaticIndex(statics, path) == i + StaticIndex(statics[i..], path)
      {
        assert statics[i..][1..] == statics[i + 1..];
        i := i + 1;
      }
    }

    /** Route to an application and have it answer. */
    method Ask(req: Http.Request) returns (response: seq<byte>)
      requires StaticIndex(site.statics, req.path) == |site.statics|
      modifies router
      ensures (response, router.entries) == Answered(site, old(router.entries), req)
    {
      response := Fallback();
      var best := router.RouteMut(req.path);
      if best.Some? {
        var (plen, i) := best.value;
        var r := router.entries[i];
        var call := Call(r.app.feed, req.verb, Below(req.path, plen), req.body);
        var answer := site.answers(r.app, call);
        router.entries := router.entries[i := Route(r.prefix, r.app.(calls := r.app.calls + [call]))];
        if answer.Some? {
          response := answer.value;
        }
      }
    }

    /** Receive at most `limit` of the bytes that are there. */
    method Receive(size: nat, limit: nat) returns (chunk: seq<byte>)
      modifies this`admin
      ensures chunk == Admin.Chunk(old(admin.incoming), size, limit)
      ensures admin == old(admin).(incoming := old(admin.incoming)[|chunk|..])
    {
      chunk := Admin.Chunk(admin.incoming, size, limit);
      admin := admin.(incoming := admin.incoming[|chunk|..]);
    }

    /** One turn of the upload endpoint. */
    method AdminTurn(peer: Option<seq<byte>>, look: Admin.Look)
      modifies this`admin, this`pendingEntry, this`answers, this`writes, this`uploads
      ensures State() == Administered(old(State()), peer, look)
    {
      if peer.Some? {
        admin := admin.(incoming := peer.value);
      }
      AdminLook(look);
    }

    /** One turn of the upload endpoint with the peer it has. */
    method AdminLook(look: Admin.Look)
      modifies this`admin, this`pendingEntry, this`answers, this`writes, this`uploads
      ensures State() == Administered(old(State()), None, look)
    {
      var state := if look.open || admin.state.Halted? then admin.state else Admin.Idle;
      match state {
        case Idle =>
          if look.mayRecv {
            state := Admin.ReceivingHeaders([]);
          }
        case ReceivingHeaders(buf) =>
          state := TakeHeaders(buf, look);
        case ReceivingBody(prefix, buf, total) =>
          state := TakeBody(prefix, buf, total, look);
        case Halted =>
      }
      admin := admin.(state := state);
    }

    /** Receive header bytes; the state after that. */
    method TakeHeaders(buf: seq<byte>, look: Admin.Look) returns (state: Admin.State)
      modifies this`admin, this`answers
      ensures var chunk := Admin.Chunk(old(admin.incoming), look.size, Admin.HEADER_CHUNK);
        var after := if chunk == [] then (Admin.ReceivingHeaders(buf), Admin.Nothing)
            else Admin.AfterHeaders(buf + chunk);
        && admin == old(admin).(incoming := old(admin.incoming)[|chunk|..])
        && state == Admin.Kept(after.0, look.stillOpen) && answers == old(answers) + Spoken(after.1)
    {
      state := Admin.ReceivingHeaders(buf);
      var chunk := Receive(look.size, Admin.HEADER_CHUNK);
      if chunk != [] {
        state := HeadersGrown(buf + chunk);
        if state.Idle? {
          answers := answers + [Admin.BadRequest];
        } else if state.Halted? {
          answers := answers + [Admin.Halts];
          return;
        }
      }
      if !look.stillOpen {
        state := Admin.Idle;
      }
    }

    /** Receive body bytes, and accept or refuse the module once it is complete; the state after that. */
    method TakeBody(prefix: seq<byte>, buf: seq<byte>, total: nat, look: Admin.Look) returns (state: Admin.State)
      modifies this`admin, this`pendingEntry, this`answers, this`writes, this`uploads
      ensures var chunk := Admin.Chunk(old(admin.incoming), look.size, Admin.BODY_CHUNK);
        var after := Admin.AfterBody(prefix, buf + chunk, total);
        && admin == old(admin).(incoming := old(admin.incoming)[|chunk|..])
        && state == (if look.stillOpen then after.0 else Admin.Idle) && answers == old(answers) + Spoken(after.1)
        && pendingEntry == (if after.1.Accepted? then Some(Upload(prefix, after.1.bytes)) else old(pendingEntry))
        && uploads == old(uploads) + AcceptedOne(after.1) && writes == old(writes) + WritesOf(AcceptedOne(after.1))
    {
      var chunk := Receive(look.size, Admin.BODY_CHUNK);
      var all := buf + chunk;
      state := Admin.ReceivingBody(prefix, all, total);
      if |all| >= total {
        if total > Admin.MAX_WASM_SIZE {
          answers := answers + [Admin.TooLarge];
        } else {
          Accept(prefix, all[..total]);
        }
        state := Admin.Idle;
      }
      if !look.stillOpen {
        state := Admin.Idle;
      }
    }

    /** The state once more header bytes are in. */
    static method HeadersGrown(buf: seq<byte>) returns (state: Admin.State)
      ensures state == Admin.AfterHeaders(buf).0
      ensures Admin.AfterHeaders(buf).1 == if state.Idle? then Admin.BadRequest
          else if state.Halted? then Admin.Halts else Admin.Nothing
    {
      var end := Http.FindHeaderEnd(buf);
      if end.None? {
        return Admin.ReceivingHeaders(buf);
      }
      var headers := buf[..end.value];
      match Http.ContentLength(headers) {
        case Stops => state := Admin.Halted;
        case NoLength => state := Admin.Idle;
        case Length(total) =>
          state := Admin.ReceivingBody(Http.RoutePrefix(Http.ParseHttp(headers).path), buf[end.value + 4..], total);
      }
    }

    /** Accept an upload: persist the module and leave it for the next turn to swap in. */
    method Accept(prefix: seq<byte>, bytes: seq<byte>)
      modifies this`pendingEntry, this`answers, this`writes, this`uploads
      ensures answers == old(answers) + [Admin.Accepted(prefix, bytes)]
      ensures pendingEntry == Some(Upload(prefix, bytes)) && uploads == old(uploads) + [Upload(prefix, bytes)]
      ensures writes == old(writes) + [Write(StoreKey(prefix), bytes)]
    {
      answers := answers + [Admin.Accepted(prefix, bytes)];
      writes := writes + [Write(StoreKey(prefix), bytes)];
      pendingEntry := Some(Upload(prefix, bytes));
      uploads := uploads + [Upload(prefix, bytes)];
    }

    /** One turn of the loop. */
    method Iterate(input: Input)
      modifies this`fetch, this`slots, this`pendingFeed, this`lastFeed, this`pendingEntry, this`page, this`shown,
          this`admin, this`answers, this`writes, this`uploads, this`installs, router
      ensures State() == Iterated(site, old(State()), input)
      ensures old(Inv(State())) ==> Inv(State())
    {
      if admin.state.Halted? {
        return;
      }
      if Inv(State()) {
        IteratedKeepsInv(site, State(), input);
      }
      ApplyPending();
      FetchTurn(input.fetch);
      PageTurn(input.visitor, input.page);
      AdminTurn(input.peer, input.look);
    }
  }
}
