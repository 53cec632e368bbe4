/** The router: applications under path prefixes, the longest prefix of a path wins. */
module Router {
  import opened Bytes

  datatype Route<T> = Route(prefix: seq<byte>, app: T)

  predicate Distinct<T>(rs: seq<Route<T>>) {
    forall i, j :: 0 <= i < j < |rs| ==> rs[i].prefix != rs[j].prefix
  }

  /** The index of the first route under the prefix. */
  function RouteIndex<T>(rs: seq<Route<T>>, prefix: seq<byte>): (i: nat)
    ensures i <= |rs| && (i < |rs| ==> rs[i].prefix == prefix) && forall k :: 0 <= k < i ==> rs[k].prefix != prefix
  {
    if rs == [] || rs[0].prefix == prefix then 0 else 1 + RouteIndex(rs[1..], prefix)
  }

  function Lookup<T>(rs: seq<Route<T>>, prefix: seq<byte>): (a: Option<T>) {
    var i := RouteIndex(rs, prefix);
    if i < |rs| then Some(rs[i].app) else None
  }

  /** Replace the application under the prefix, or add it at the end. */
  function Inserted<T>(rs: seq<Route<T>>, prefix: seq<byte>, app: T): (r: seq<Route<T>>) {
    var i := RouteIndex(rs, prefix);
    if i < |rs| then rs[i := Route(prefix, app)] else rs + [Route(prefix, app)]
  }

  function InsertAll<T>(rs: seq<Route<T>>, log: seq<Route<T>>): (r: seq<Route<T>>)
    decreases |log|
  {
    if log == [] then rs else InsertAll(Inserted(rs, log[0].prefix, log[0].app), log[1..])
  }

  lemma InsertedDistinct<T>(rs: seq<Route<T>>, prefix: seq<byte>, app: T)
    requires Distinct(rs)
    ensures Distinct(Inserted(rs, prefix, app))
  {
  }

  lemma IndexUnique<T>(rs: seq<Route<T>>, i: nat)
    requires Distinct(rs) && i < |rs|
    ensures RouteIndex(rs, rs[i].prefix) == i
  {
  }

  /** Insertion updates one prefix and leaves the others as they were. */
  lemma InsertedLookup<T>(rs: seq<Route<T>>, prefix: seq<byte>, app: T, q: seq<byte>)
    requires Distinct(rs)
    ensures Lookup(Inserted(rs, prefix, app), q) == if q == prefix then Some(app) else Lookup(rs, q)
  {
    var r := Inserted(rs, prefix, app);
    InsertedDistinct(rs, prefix, app);
    var i := RouteIndex(rs, if q == prefix then prefix else q);
    if q == prefix {
      IndexUnique(r, i);
    } else if i < |rs| {
      IndexUnique(r, i);
    }
  }

  // ---- routing ----

  /** The last of the longest matching prefixes among the first n routes. */
  function Best<T>(rs: seq<Route<T>>, path: seq<byte>, n: nat): (b: Option<nat>)
    requires n <= |rs|
    ensures b.Some? ==> b.value < n && rs[b.value].prefix <= path
    ensures b.None? ==> forall k :: 0 <= k < n ==> !(rs[k].prefix <= path)
    ensures b.Some? ==> forall k :: 0 <= k < n && rs[k].prefix <= path ==> |rs[k].prefix| <= |rs[b.value].prefix|
  {
    if n == 0 then None
    else
      var b := Best(rs, path, n - 1);
      if rs[n - 1].prefix <= path && (b.None? || |rs[n - 1].prefix| >= |rs[b.value].prefix|) then Some(n - 1) else b
  }

  function Routed<T>(rs: seq<Route<T>>, path: seq<byte>): (r: Option<Route<T>>) {
    var b := Best(rs, path, |rs|);
    if b.Some? then Some(rs[b.value]) else None
  }

  lemma SameLengthPrefixes(a: seq<byte>, b: seq<byte>, path: seq<byte>)
    requires a <= path && b <= path && |a| == |b|
    ensures a == b
  {
  }

  /** The longest matching prefix is unique, though ties would be broken towards later routes. */
  lemma RoutedUnique<T>(rs: seq<Route<T>>, path: seq<byte>, r: Route<T>)
    requires Distinct(rs)
    ensures Routed(rs, path) == Some(r) <==>
      (Lookup(rs, r.prefix) == Some(r.app) && r.prefix <= path
      && forall k :: 0 <= k < |rs| && rs[k].prefix <= path && rs[k].prefix != r.prefix ==> |rs[k].prefix| < |r.prefix|)
  {
    var b := Best(rs, path, |rs|);
    if b.Some? {
      IndexUnique(rs, b.value);
      forall k | 0 <= k < |rs| && rs[k].prefix <= path && |rs[k].prefix| == |rs[b.value].prefix| ensures k == b.value {
        SameLengthPrefixes(rs[k].prefix, rs[b.value].prefix, path);
      }
    }
  }

  /** A prefix that does not match a path has no part in its routing. */
  lemma OthersUntouched<T>(rs: seq<Route<T>>, prefix: seq<byte>, app: T, path: seq<byte>)
    requires Distinct(rs) && !(prefix <= path)
    ensures Routed(Inserted(rs, prefix, app), path) == Routed(rs, path)
  {
    var r := Inserted(rs, prefix, app);
    var before := Routed(rs, path);
    InsertedDistinct(rs, prefix, app);
    if before.Some? {
      RoutedUnique(rs, path, before.value);
      InsertedLookup(rs, prefix, app, before.value.prefix);
      RoutedUnique(r, path, before.value);
    } else {
      assert forall k :: 0 <= k < |r| ==> !(r[k].prefix <= path);
    }
  }

  /** The application that the last insertion under the prefix put there. */
  function LastInserted<T>(log: seq<Route<T>>, prefix: seq<byte>): (a: Option<T>) {
    if log == [] then None
    else if log[|log| - 1].prefix == prefix then Some(log[|log| - 1].app)
    else LastInserted(log[..|log| - 1], prefix)
  }

  lemma {:induction false} InsertAllSnoc<T>(rs: seq<Route<T>>, log: seq<Route<T>>, r: Route<T>)
    ensures InsertAll(rs, log + [r]) == Inserted(InsertAll(rs, log), r.prefix, r.app)
    decreases |log|
  {
    if log == [] {
      assert ([] + [r])[1..] == [];
    } else {
      assert (log + [r])[1..] == log[1..] + [r];
      InsertAllSnoc(Inserted(rs, log[0].prefix, log[0].app), log[1..], r);
    }
  }

  /** After any insertions the prefixes are distinct and each holds what was inserted there last. */
  lemma {:induction false} InsertAllLookup<T>(log: seq<Route<T>>, q: seq<byte>)
    ensures Distinct(InsertAll([], log)) && Lookup(InsertAll([], log), q) == LastInserted(log, q)
    decreases |log|
  {
    if log != [] {
      var init, last := log[..|log| - 1], log[|log| - 1];
      assert log == init + [last];
      InsertAllLookup(init, q);
      InsertAllSnoc([], init, last);
      InsertedDistinct(InsertAll([], init), last.prefix, last.app);
      InsertedLookup(InsertAll([], init), last.prefix, last.app, q);
    }
  }

  /** A registered prefix of a path is matched by a route, no longer than the one chosen. */
  lemma Chosen<T>(rs: seq<Route<T>>, path: seq<byte>, q: seq<byte>)
    requires Distinct(rs) && Lookup(rs, q).Some? && q <= path
    ensures Routed(rs, path).Some? && (q != Routed(rs, path).value.prefix ==> |q| < |Routed(rs, path).value.prefix|)
  {
    var i, b := RouteIndex(rs, q), Best(rs, path, |rs|);
    assert rs[i].prefix == q;
    if |q| == |rs[b.value].prefix| {
      SameLengthPrefixes(q, rs[b.value].prefix, path);
    }
  }

  /** A path is routed to the application last inserted at its longest registered prefix, whatever the order. */
  lemma RoutesToLast<T>(log: seq<Route<T>>, path: seq<byte>)
    ensures var r := Routed(InsertAll([], log), path);
      && (r.Some? ==> LastInserted(log, r.value.prefix) == Some(r.value.app) && r.value.prefix <= path)
      && forall q :: LastInserted(log, q).Some? && q <= path ==>
          r.Some? && (q != r.value.prefix ==> |q| < |r.value.prefix|)
  {
    var rs := InsertAll([], log);
    var r := Routed(rs, path);
    InsertAllLookup(log, []);
    if r.Some? {
      InsertAllLookup(log, r.value.prefix);
      IndexUnique(rs, Best(rs, path, |rs|).value);
    }
    forall q: seq<byte> | LastInserted(log, q).Some? && q <= path
      ensures r.Some? && (q != r.value.prefix ==> |q| < |r.value.prefix|)
    {
      InsertAllLookup(log, q);
      Chosen(rs, path, q);
    }
  }

  /** The table itself. */
  class WasmRouter<T> {
    var entries: seq<Route<T>>

    constructor ()
      ensures entries == []
    {
      entries := [];
    }

    method Insert(prefix: seq<byte>, app: T)
      modifies this
      ensures entries == Inserted(old(entries), prefix, app)
    {
      var i := 0;
      while i < |entries|
        invariant i <= |entries| && entries == old(entries)
        invariant forall k :: 0 <= k < i ==> entries[k].prefix != prefix
      {
        if entries[i].prefix == prefix {
          entries := entries[i := Route(prefix, app)];
          return;
        }
        i := i + 1;
      }
      entries := entries + [Route(prefix, app)];
    }

    /** The length of the winning prefix, and the index of its application. */
    method RouteMut(path: seq<byte>) returns (best: Option<(nat, nat)>)
      ensures var r := Routed(entries, path);
        && (best.None? <==> r.None?)
        && (best.Some? ==>
              && Best(entries, path, |entries|) == Some(best.value.1)
              && best.value.1 < |entries| && r == Some(entries[best.value.1]) && best.value.0 == |r.value.prefix|)
    {
      var bestLen, bestIdx: Option<nat> := 0, None;
      var i := 0;
      while i < |entries|
        invariant i <= |entries| && bestIdx == Best(entries, path, i)
        invariant bestLen == if bestIdx.Some? then |entries[bestIdx.value].prefix| else 0
      {
        if entries[i].prefix <= path && |entries[i].prefix| >= bestLen {
          bestLen, bestIdx := |entries[i].prefix|, Some(i);
        }
        i := i + 1;
      }
      best := if bestIdx.Some? then Some((|entries[bestIdx.value].prefix|, bestIdx.value)) else None;
    }
  }
}
