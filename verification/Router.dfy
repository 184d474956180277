/** Routing (src/lib/path_router.hpp, src/lib/path_router.cpp): per-method tables
    kept in order of decreasing location length, first match wins. */
module Router {
  import opened RequestMachine
  import RequestParser
  import opened Url
  import opened Reply
  import opened ReplyReader
  import opened Content

  // Tables

  predicate SortedByLength(entries: seq<Entry>) {
    forall i, j | 0 <= i < j < |entries| :: |entries[i].location| >= |entries[j].location|
  }

  /** Of the entries added so far, those for one method. */
  function EntriesFor(added: seq<Entry>, verb: string): seq<Entry> {
    if added == [] then []
    else
      var last := added[|added| - 1];
      EntriesFor(added[..|added| - 1], verb) + (if last.resource.Verb() == verb then [last] else [])
  }

  /** Each method's table is a length-sorted permutation of what was added for it.
      The sort of the standard library is not stable, so no more can be said. */
  ghost predicate TableFor(added: seq<Entry>, table: map<string, seq<Entry>>) {
    forall verb :: RowFor(added, table, verb)
  }

  ghost predicate RowFor(added: seq<Entry>, table: map<string, seq<Entry>>, verb: string) {
    if verb in table then
      SortedByLength(table[verb]) && multiset(table[verb]) == multiset(EntriesFor(added, verb)) && table[verb] != []
    else
      EntriesFor(added, verb) == []
  }

  // Routing as a function

  predicate HasDotDot(s: string) {
    exists i :: 0 <= i < |s| - 1 && s[i] == '.' && s[i + 1] == '.'
  }

  /** Absolute and without "..", query included. */
  predicate AcceptablePath(path: string) {
    path != "" && path[0] == '/' && !HasDotDot(path)
  }

  function TableVerb(verb: string): string {
    if verb == "HEAD" then "GET" else verb
  }

  ghost function ServeFirst(world: World, entries: seq<Entry>, path: string, req: Request, rep: ReplyData): ReplyData {
    if entries == [] then Stock(NotFound)
    else if Serves(entries[0], path) then Serve(world, entries[0], path, req, rep)
    else ServeFirst(world, entries[1..], path, req, rep)
  }

  ghost function Route(world: World, table: map<string, seq<Entry>>, req: Request, rep: ReplyData): ReplyData {
    var path := Decode(req.uri);
    if !path.ok || !AcceptablePath(path.text) then Stock(BadRequest)
    else if TableVerb(req.verb) !in table then Stock(NotFound)
    else ServeFirst(world, table[TableVerb(req.verb)], path.text, req, rep)
  }

  // The entry that serves

  /** The entry at `i` serves the path and no earlier one does. */
  ghost predicate ServedAt(entries: seq<Entry>, path: string, i: int) {
    0 <= i < |entries| && Serves(entries[i], path) && forall j | 0 <= j < i :: !Serves(entries[j], path)
  }

  /** `e` is the first entry that serves the path. */
  ghost predicate FirstOf(entries: seq<Entry>, path: string, e: Entry) {
    exists i :: ServedAt(entries, path, i) && entries[i] == e
  }

  /** The router hands the request to `e`. */
  ghost predicate Chosen(table: map<string, seq<Entry>>, req: Request, e: Entry) {
    var path, verb := Decode(req.uri), TableVerb(req.verb);
    path.ok && AcceptablePath(path.text) && verb in table && FirstOf(table[verb], path.text, e)
  }

  lemma {:induction false} ServeFirstAt(world: World, entries: seq<Entry>, path: string, i: int, req: Request,
                                        rep: ReplyData)
    requires ServedAt(entries, path, i)
    ensures ServeFirst(world, entries, path, req, rep) == Serve(world, entries[i], path, req, rep)
    decreases i
  {
    if i > 0 {
      ServeFirstAt(world, entries[1..], path, i - 1, req, rep);
    }
  }

  /** The reply is that of the chosen entry. */
  lemma ChosenServes(world: World, table: map<string, seq<Entry>>, req: Request, rep: ReplyData, e: Entry)
    requires Chosen(table, req, e)
    ensures Serves(e, Decode(req.uri).text)
    ensures Route(world, table, req, rep) == Serve(world, e, Decode(req.uri).text, req, rep)
  {
    var path, entries := Decode(req.uri).text, table[TableVerb(req.verb)];
    var i :| ServedAt(entries, path, i) && entries[i] == e;
    ServeFirstAt(world, entries, path, i, req, rep);
  }

  lemma {:induction false} FirstServing(entries: seq<Entry>, path: string) returns (i: int)
    requires exists f :: f in entries && Serves(f, path)
    ensures ServedAt(entries, path, i)
  {
    assert entries == [entries[0]] + entries[1..];
    if Serves(entries[0], path) {
      i := 0;
    } else {
      var k := FirstServing(entries[1..], path);
      i := k + 1;
    }
  }

  lemma {:induction false} NoneServes(world: World, entries: seq<Entry>, path: string, req: Request, rep: ReplyData)
    requires forall f | f in entries :: !Serves(f, path)
    ensures ServeFirst(world, entries, path, req, rep) == Stock(NotFound)
  {
    if entries != [] {
      NoneServes(world, entries[1..], path, req, rep);
    }
  }

  // First match in a sorted table is longest match

  /** `e` is among the entries, serves the path, and no longer entry does. */
  ghost predicate LongestServing(entries: multiset<Entry>, path: string, e: Entry) {
    && e in entries && Serves(e, path)
    && forall f | f in entries && Serves(f, path) :: |f.location| <= |e.location|
  }

  lemma FirstIsLongest(entries: seq<Entry>, path: string, i: int)
    requires SortedByLength(entries) && ServedAt(entries, path, i)
    ensures LongestServing(multiset(entries), path, entries[i])
  {
    forall f | f in multiset(entries) && Serves(f, path) ensures |f.location| <= |entries[i].location| {
      var k :| 0 <= k < |entries| && entries[k] == f;
    }
  }

  lemma ChosenIsLongest(added: seq<Entry>, table: map<string, seq<Entry>>, req: Request, e: Entry)
    requires TableFor(added, table) && Chosen(table, req, e)
    ensures LongestServing(multiset(EntriesFor(added, TableVerb(req.verb))), Decode(req.uri).text, e)
  {
    var path, verb := Decode(req.uri).text, TableVerb(req.verb);
    assert RowFor(added, table, verb);
    var i :| ServedAt(table[verb], path, i) && table[verb][i] == e;
    FirstIsLongest(table[verb], path, i);
  }

  lemma RowHolds(added: seq<Entry>, table: map<string, seq<Entry>>, verb: string, f: Entry)
    requires TableFor(added, table)
    ensures f in multiset(EntriesFor(added, verb)) <==> verb in table && f in table[verb]
  {
    assert RowFor(added, table, verb);
    assert f in multiset(EntriesFor(added, verb)) <==> f in EntriesFor(added, verb);
    assert verb in table ==> (f in multiset(table[verb]) <==> f in table[verb]);
  }

  /** An acceptable path is served by a longest matching entry of its method, and
      gets the router's own 404 when no entry of its method matches. */
  lemma RoutedByLongest(world: World, added: seq<Entry>, table: map<string, seq<Entry>>, req: Request, rep: ReplyData)
    requires TableFor(added, table)
    requires Decode(req.uri).ok && AcceptablePath(Decode(req.uri).text)
    ensures var path, entries := Decode(req.uri).text, multiset(EntriesFor(added, TableVerb(req.verb)));
            if exists f :: f in entries && Serves(f, path)
            then exists e :: Chosen(table, req, e) && LongestServing(entries, path, e)
                             && Route(world, table, req, rep) == Serve(world, e, path, req, rep)
            else Route(world, table, req, rep) == Stock(NotFound)
  {
    var path, verb := Decode(req.uri).text, TableVerb(req.verb);
    var entries := multiset(EntriesFor(added, verb));
    if f :| f in entries && Serves(f, path) {
      RowHolds(added, table, verb, f);
      var i := FirstServing(table[verb], path);
      var e := table[verb][i];
      assert Chosen(table, req, e);
      ChosenIsLongest(added, table, req, e);
      ChosenServes(world, table, req, rep, e);
    } else if verb in table {
      forall f | f in table[verb] ensures !Serves(f, path) {
        RowHolds(added, table, verb, f);
      }
      NoneServes(world, table[verb], path, req, rep);
    }
  }

  // What the unstable sort leaves open

  /** Only one of the entries that serve the path has the greatest length. */
  ghost predicate NoTopTies(entries: multiset<Entry>, path: string) {
    forall e, f | LongestServing(entries, path, e) && LongestServing(entries, path, f) :: e == f
  }

  /** Without ties at the top every table picks the one longest serving entry. */
  lemma UntiedServes(world: World, added: seq<Entry>, table: map<string, seq<Entry>>, e: Entry, req: Request,
                     rep: ReplyData)
    requires TableFor(added, table)
    requires Decode(req.uri).ok && AcceptablePath(Decode(req.uri).text)
    requires var path, entries := Decode(req.uri).text, multiset(EntriesFor(added, TableVerb(req.verb)));
             LongestServing(entries, path, e) && NoTopTies(entries, path)
    ensures Chosen(table, req, e)
    ensures Route(world, table, req, rep) == Serve(world, e, Decode(req.uri).text, req, rep)
  {
    RoutedByLongest(world, added, table, req, rep);
  }

  /** Without ties at the top, neither the order of `add` calls nor the outcome of
      the unstable sort can be observed. */
  lemma OrderIrrelevant(world: World, added: seq<Entry>, table: map<string, seq<Entry>>,
                        added': seq<Entry>, table': map<string, seq<Entry>>, req: Request, rep: ReplyData)
    requires TableFor(added, table) && TableFor(added', table')
    requires multiset(EntriesFor(added, TableVerb(req.verb))) == multiset(EntriesFor(added', TableVerb(req.verb)))
    requires NoTopTies(multiset(EntriesFor(added, TableVerb(req.verb))), Decode(req.uri).text)
    ensures Route(world, table, req, rep) == Route(world, table', req, rep)
  {
    if Decode(req.uri).ok && AcceptablePath(Decode(req.uri).text) {
      RoutedByLongest(world, added, table, req, rep);
      RoutedByLongest(world, added', table', req, rep);
    }
  }

  lemma SwappedKeepsRow(row: seq<Entry>, i: int, k: int)
    requires SortedByLength(row) && 0 <= i < |row| && 0 <= k < |row| && |row[k].location| == |row[i].location|
    ensures var swapped := row[i := row[k]][k := row[i]];
            SortedByLength(swapped) && multiset(swapped) == multiset(row)
  {
  }

  lemma SwappedServes(row: seq<Entry>, path: string, i: int, k: int)
    requires ServedAt(row, path, i) && 0 <= k < |row| && Serves(row[k], path)
    ensures var swapped := row[i := row[k]][k := row[i]];
            ServedAt(swapped, path, i) && swapped[i] == row[k]
  {
  }

  lemma RowReplaced(added: seq<Entry>, table: map<string, seq<Entry>>, verb: string, row: seq<Entry>)
    requires TableFor(added, table) && verb in table
    requires SortedByLength(row) && multiset(row) == multiset(table[verb])
    ensures TableFor(added, table[verb := row])
  {
    assert RowFor(added, table, verb);
    var table' := table[verb := row];
    assert |multiset(row)| == |multiset(table[verb])|;
    forall v ensures RowFor(added, table', v) {
      assert RowFor(added, table, v);
    }
  }

  lemma RowChoosing(row: seq<Entry>, path: string, e: Entry) returns (row': seq<Entry>)
    requires SortedByLength(row) && LongestServing(multiset(row), path, e)
    ensures SortedByLength(row') && multiset(row') == multiset(row) && FirstOf(row', path, e)
  {
    assert e in row;
    var i := FirstServing(row, path);
    FirstIsLongest(row, path, i);
    var k :| 0 <= k < |row| && row[k] == e;
    assert row[i] in multiset(row);
    SwappedKeepsRow(row, i, k);
    SwappedServes(row, path, i, k);
    row' := row[i := row[k]][k := row[i]];
  }

  lemma RowOfLongest(added: seq<Entry>, table: map<string, seq<Entry>>, verb: string, path: string, e: Entry)
    requires TableFor(added, table) && LongestServing(multiset(EntriesFor(added, verb)), path, e)
    ensures verb in table && SortedByLength(table[verb]) && LongestServing(multiset(table[verb]), path, e)
  {
    assert RowFor(added, table, verb);
  }

  /** Any longest serving entry may be the one the sort puts first. */
  lemma TableChoosing(added: seq<Entry>, table: map<string, seq<Entry>>, req: Request, e: Entry)
    returns (table': map<string, seq<Entry>>)
    requires TableFor(added, table)
    requires Decode(req.uri).ok && AcceptablePath(Decode(req.uri).text)
    requires LongestServing(multiset(EntriesFor(added, TableVerb(req.verb))), Decode(req.uri).text, e)
    ensures TableFor(added, table') && Chosen(table', req, e)
  {
    var path, verb := Decode(req.uri).text, TableVerb(req.verb);
    RowOfLongest(added, table, verb, path, e);
    var row := RowChoosing(table[verb], path, e);
    RowReplaced(added, table, verb, row);
    table' := table[verb := row];
  }

  /** The longest serving entries are exactly those that some table the additions
      may lead to hands the request to. */
  lemma ChoicesAreLongest(added: seq<Entry>, table: map<string, seq<Entry>>, req: Request, e: Entry)
    requires TableFor(added, table)
    requires Decode(req.uri).ok && AcceptablePath(Decode(req.uri).text)
    ensures LongestServing(multiset(EntriesFor(added, TableVerb(req.verb))), Decode(req.uri).text, e)
            <==> exists table' :: TableFor(added, table') && Chosen(table', req, e)
  {
    if LongestServing(multiset(EntriesFor(added, TableVerb(req.verb))), Decode(req.uri).text, e) {
      var table' := TableChoosing(added, table, req, e);
    }
    forall table' | TableFor(added, table') && Chosen(table', req, e)
      ensures LongestServing(multiset(EntriesFor(added, TableVerb(req.verb))), Decode(req.uri).text, e)
    {
      ChosenIsLongest(added, table', req, e);
    }
  }

  /** All tables the additions may lead to hand the request to the same entry. */
  ghost predicate Determined(added: seq<Entry>, req: Request) {
    forall t, u, e, f | TableFor(added, t) && TableFor(added, u) && Chosen(t, req, e) && Chosen(u, req, f) :: e == f
  }

  /** The additions determine the entry exactly when there is no tie at the top. */
  lemma DeterminedWithoutTies(added: seq<Entry>, table: map<string, seq<Entry>>, req: Request)
    requires TableFor(added, table)
    requires Decode(req.uri).ok && AcceptablePath(Decode(req.uri).text)
    ensures Determined(added, req)
            <==> NoTopTies(multiset(EntriesFor(added, TableVerb(req.verb))), Decode(req.uri).text)
  {
    var path, entries := Decode(req.uri).text, multiset(EntriesFor(added, TableVerb(req.verb)));
    if Determined(added, req) {
      forall e, f | LongestServing(entries, path, e) && LongestServing(entries, path, f) ensures e == f {
        var t := TableChoosing(added, table, req, e);
        var u := TableChoosing(added, table, req, f);
      }
    }
    if NoTopTies(entries, path) {
      forall t, u, e, f | TableFor(added, t) && TableFor(added, u) && Chosen(t, req, e) && Chosen(u, req, f)
        ensures e == f
      {
        ChosenIsLongest(added, t, req, e);
        ChosenIsLongest(added, u, req, f);
      }
    }
  }

  predicate AllStatic(entries: seq<Entry>) {
    forall i | 0 <= i < |entries| :: entries[i].resource.Static?
  }

  /** No two entries, not even two additions of one entry, share a location. */
  predicate DistinctLocations(entries: seq<Entry>) {
    forall i, j | 0 <= i < j < |entries| :: entries[i].location != entries[j].location
  }

  lemma StaticNoTies(entries: seq<Entry>, path: string)
    requires AllStatic(entries) && DistinctLocations(entries)
    ensures NoTopTies(multiset(entries), path)
  {
    forall e, f | LongestServing(multiset(entries), path, e) && LongestServing(multiset(entries), path, f)
      ensures e == f
    {
      var i :| 0 <= i < |entries| && entries[i] == e;
      var j :| 0 <= j < |entries| && entries[j] == f;
      assert e.location == path[..|e.location|] == f.location;
      assert i == j;
    }
  }

  lemma LongestPrefixServes(entries: seq<Entry>, path: string, e: Entry)
    requires AllStatic(entries) && e in entries && e.location <= path
    requires forall f | f in entries && f.location <= path :: |f.location| <= |e.location|
    ensures LongestServing(multiset(entries), path, e) && e.resource.Static?
  {
    forall f | f in multiset(entries) && Serves(f, path) ensures |f.location| <= |e.location| {
      assert f in entries && f.location <= path;
    }
  }

  /** Tables of static content route by the unique longest prefix, whatever order
      the locations were added in. */
  lemma StaticLongestPrefix(world: World, added: seq<Entry>, table: map<string, seq<Entry>>, e: Entry,
                            req: Request, rep: ReplyData)
    requires TableFor(added, table)
    requires Decode(req.uri).ok && AcceptablePath(Decode(req.uri).text)
    requires var entries := EntriesFor(added, TableVerb(req.verb));
             AllStatic(entries) && DistinctLocations(entries) && e in entries
    requires e.location <= Decode(req.uri).text
    requires forall f | f in EntriesFor(added, TableVerb(req.verb)) && f.location <= Decode(req.uri).text ::
               |f.location| <= |e.location|
    ensures Route(world, table, req, rep)
            == ServeStatic(world, e.resource.docRoot, e.location, Decode(req.uri).text, req, rep)
  {
    var entries, path := EntriesFor(added, TableVerb(req.verb)), Decode(req.uri).text;
    StaticNoTies(entries, path);
    LongestPrefixServes(entries, path, e);
    UntiedServes(world, added, table, e, req, rep);
  }

  // What every routed reply is like

  /** The request is HEAD and the entry that serves it is static. */
  ghost predicate StaticHead(table: map<string, seq<Entry>>, req: Request) {
    req.verb == "HEAD" && exists e :: Chosen(table, req, e) && e.resource.Static?
  }

  /** The reply is the one to GET, which states its length truly, without its body. */
  ghost predicate HeadOfGet(world: World, table: map<string, seq<Entry>>, req: Request, rep: ReplyData) {
    var get := Route(world, table, req.(verb := "GET"), rep);
    Framed(get) && Route(world, table, req, rep) == get.(content := "")
  }

  lemma ChosenForGet(table: map<string, seq<Entry>>, req: Request, e: Entry)
    requires Chosen(table, req, e) && req.verb == "HEAD"
    ensures Chosen(table, req.(verb := "GET"), e)
  {
    assert TableVerb("GET") == TableVerb("HEAD");
  }

  lemma ChosenFramed(world: World, table: map<string, seq<Entry>>, req: Request, rep: ReplyData, e: Entry)
    requires Chosen(table, req, e)
    ensures if e.resource.Static? && req.verb == "HEAD" then HeadOfGet(world, table, req, rep)
            else Framed(Route(world, table, req, rep))
  {
    var path := Decode(req.uri).text;
    ChosenServes(world, table, req, rep, e);
    ServeFramed(world, e, path, req, rep);
    if e.resource.Static? && req.verb == "HEAD" {
      var get := req.(verb := "GET");
      assert "GET"[0] != "HEAD"[0];
      ChosenForGet(table, req, e);
      ChosenServes(world, table, get, rep, e);
      ServeFramed(world, e, path, get, rep);
    }
  }

  lemma UnchosenFramed(world: World, table: map<string, seq<Entry>>, req: Request, rep: ReplyData)
    requires forall e :: !Chosen(table, req, e)
    ensures Framed(Route(world, table, req, rep))
  {
    StockShown(BadRequest);
    StockShown(NotFound);
    var path, verb := Decode(req.uri), TableVerb(req.verb);
    if path.ok && AcceptablePath(path.text) && verb in table {
      if exists f :: f in table[verb] && Serves(f, path.text) {
        var i := FirstServing(table[verb], path.text);
        assert Chosen(table, req, table[verb][i]);
      } else {
        NoneServes(world, table[verb], path.text, req, rep);
      }
    }
  }

  /** A HEAD request served by a static entry is answered as GET but without the
      body; every other reply of the router, errors included, carries its true length
      in exactly one Content-Length header, as does the one to that GET. */
  lemma RouteFramed(world: World, table: map<string, seq<Entry>>, req: Request, rep: ReplyData)
    ensures if StaticHead(table, req) then HeadOfGet(world, table, req, rep)
            else Framed(Route(world, table, req, rep))
  {
    if StaticHead(table, req) {
      var e :| Chosen(table, req, e) && e.resource.Static?;
      ChosenFramed(world, table, req, rep, e);
    } else if e :| Chosen(table, req, e) {
      ChosenFramed(world, table, req, rep, e);
    } else {
      UnchosenFramed(world, table, req, rep);
    }
  }

  lemma {:induction false} ServeFirstPlain(world: World, entries: seq<Entry>, path: string, req: Request,
                                           rep: ReplyData)
    requires WellBehaved(world) && '\r' !in req.uri
    ensures PlainHeaders(ServeFirst(world, entries, path, req, rep).headers)
  {
    if entries == [] {
      StockPlain(NotFound);
    } else if Serves(entries[0], path) {
      ServePlain(world, entries[0], path, req, rep);
    } else {
      ServeFirstPlain(world, entries[1..], path, req, rep);
    }
  }

  /** Every reply of the router, echoed target included, can be read back. */
  lemma RouteDecodable(world: World, table: map<string, seq<Entry>>, req: Request, rep: ReplyData)
    requires WellBehaved(world) && '\r' !in req.uri
    ensures var r := Route(world, table, req, rep);
            PlainHeaders(r.headers)
            && ReadReply(Serialize(r)) == Message(Code(r.status), Reason(Code(r.status)), r.headers, r.content)
  {
    StockPlain(BadRequest);
    StockPlain(NotFound);
    if TableVerb(req.verb) in table {
      ServeFirstPlain(world, table[TableVerb(req.verb)], Decode(req.uri).text, req, rep);
    }
    ReplyRoundTrip(Route(world, table, req, rep));
  }

  // What clients are told

  /** The entry was added for requests of that method; those for HEAD go to the ones
      added for GET, so nothing added for HEAD is ever reached. */
  predicate AddedFor(e: Entry, verb: string) {
    match e.resource
    case Static(_) => verb == "GET" || verb == "HEAD"
    case Dynamic(action, _) => action == if verb == "HEAD" then "GET" else verb
  }

  lemma {:induction false} EntriesForAre(added: seq<Entry>, verb: string, e: Entry)
    ensures e in EntriesFor(added, TableVerb(verb)) <==> e in added && AddedFor(e, verb)
  {
    if added != [] {
      var n := |added| - 1;
      EntriesForAre(added[..n], verb, e);
      VerbOf(added[n], verb);
      assert added == added[..n] + [added[n]];
    }
  }

  lemma VerbOf(e: Entry, verb: string)
    ensures e.resource.Verb() == TableVerb(verb) <==> AddedFor(e, verb)
  {
    assert "GET"[0] != "HEAD"[0];
  }

  ghost predicate DividedByDots(text: string, before: string, after: string) {
    text == before + ".." + after
  }

  /** ".." anywhere: at the start, at the end, in between or in the query. */
  lemma DotDotDivides(text: string)
    ensures HasDotDot(text) <==> exists before, after :: DividedByDots(text, before, after)
  {
    if HasDotDot(text) {
      var i :| 0 <= i < |text| - 1 && text[i] == '.' && text[i + 1] == '.';
      assert text == text[..i] + ".." + text[i + 2..];
      assert DividedByDots(text, text[..i], text[i + 2..]);
    }
    forall before, after | DividedByDots(text, before, after) ensures HasDotDot(text) {
      assert text[|before|] == '.' && text[|before| + 1] == '.';
    }
  }

  /** Targets the router must refuse: malformed escapes, not absolute, or with "..". */
  ghost predicate Refusable(uri: string) {
    var path := Decode(uri);
    !path.ok || !("/" <= path.text) || exists before, after :: DividedByDots(path.text, before, after)
  }

  lemma RefusableExactly(uri: string)
    ensures Refusable(uri) <==> !Decode(uri).ok || !AcceptablePath(Decode(uri).text)
  {
    DotDotDivides(Decode(uri).text);
  }

  /** `e` was added for the method, serves the path, and nothing longer does. */
  ghost predicate Prevails(added: seq<Entry>, verb: string, path: string, e: Entry) {
    && e in added && AddedFor(e, verb) && Serves(e, path)
    && forall f | f in added && AddedFor(f, verb) && Serves(f, path) :: |f.location| <= |e.location|
  }

  lemma PrevailingIsLongest(added: seq<Entry>, verb: string, path: string, e: Entry)
    ensures Prevails(added, verb, path, e) <==> LongestServing(multiset(EntriesFor(added, TableVerb(verb))), path, e)
  {
    var entries := EntriesFor(added, TableVerb(verb));
    forall f ensures f in multiset(entries) <==> f in added && AddedFor(f, verb) {
      EntriesForAre(added, verb, f);
      assert f in multiset(entries) <==> f in entries;
    }
  }

  lemma RefusedByStock(world: World, table: map<string, seq<Entry>>, req: Request, rep: ReplyData)
    requires Refusable(req.uri)
    ensures Route(world, table, req, rep) == Stock(BadRequest)
  {
    RefusableExactly(req.uri);
  }

  lemma SomeServes(added: seq<Entry>, verb: string, path: string)
    ensures (exists f :: f in added && AddedFor(f, verb) && Serves(f, path))
            <==> exists f :: f in multiset(EntriesFor(added, TableVerb(verb))) && Serves(f, path)
  {
    var entries := EntriesFor(added, TableVerb(verb));
    forall f ensures f in multiset(entries) <==> f in added && AddedFor(f, verb) {
      EntriesForAre(added, verb, f);
      assert f in multiset(entries) <==> f in entries;
    }
  }

  lemma RouteCases(world: World, added: seq<Entry>, table: map<string, seq<Entry>>, req: Request, rep: ReplyData)
    requires TableFor(added, table) && !Refusable(req.uri)
    ensures var path, answer := Decode(req.uri).text, Route(world, table, req, rep);
            if exists f :: f in added && AddedFor(f, req.verb) && Serves(f, path) then
              exists e :: Prevails(added, req.verb, path, e) && Chosen(table, req, e)
                          && answer == Serve(world, e, path, req, rep)
            else answer == Stock(NotFound)
  {
    var path, entries := Decode(req.uri).text, multiset(EntriesFor(added, TableVerb(req.verb)));
    RefusableExactly(req.uri);
    SomeServes(added, req.verb, path);
    RoutedByLongest(world, added, table, req, rep);
    if exists f :: f in entries && Serves(f, path) {
      var e :| Chosen(table, req, e) && LongestServing(entries, path, e)
               && Route(world, table, req, rep) == Serve(world, e, path, req, rep);
      PrevailingIsLongest(added, req.verb, path, e);
    }
  }

  /** What every request is answered: 400 if its target must be refused, otherwise the
      reply of a longest entry added for its method, or 404 if none matches. */
  lemma RouteAnswers(world: World, added: seq<Entry>, table: map<string, seq<Entry>>, req: Request, rep: ReplyData)
    requires TableFor(added, table)
    ensures var path, answer := Decode(req.uri).text, Route(world, table, req, rep);
            if Refusable(req.uri) then Tells(answer, 400)
            else if exists f :: f in added && AddedFor(f, req.verb) && Serves(f, path) then
              exists e :: Prevails(added, req.verb, path, e) && Chosen(table, req, e)
                          && answer == Serve(world, e, path, req, rep)
            else Tells(answer, 404)
  {
    var path, answer := Decode(req.uri).text, Route(world, table, req, rep);
    if Refusable(req.uri) {
      RefusedByStock(world, table, req, rep);
      StockTells(answer, BadRequest, 400);
    } else {
      RouteCases(world, added, table, req, rep);
      if !exists f :: f in added && AddedFor(f, req.verb) && Serves(f, path) {
        StockTells(answer, NotFound, 404);
      }
    }
  }

  /** ".." is refused wherever it stands. */
  lemma DotDotRefused(world: World, table: map<string, seq<Entry>>, req: Request, rep: ReplyData,
                      before: string, after: string)
    requires Decode(req.uri) == Decoded(true, before + ".." + after)
    ensures Tells(Route(world, table, req, rep), 400)
  {
    assert DividedByDots(Decode(req.uri).text, before, after);
    RefusedByStock(world, table, req, rep);
    StockTells(Route(world, table, req, rep), BadRequest, 400);
  }

  /** Static content: the file system is asked for the rest of the path, and the client
      told what is there; a HEAD request gets the same without the body. */
  lemma StaticAnswers(world: World, table: map<string, seq<Entry>>, req: Request, e: Entry, docRoot: string,
                      rest: string)
    requires Chosen(table, req, e) && e.resource == Static(docRoot) && Decode(req.uri).text == e.location + rest
    ensures var answer := Route(world, table, req, BLANK_REPLY);
            if req.verb != "HEAD" then TellsNode(answer, world.lookup(docRoot, rest), req.uri)
            else exists full :: TellsNode(full, world.lookup(docRoot, rest), req.uri) && answer == full.(content := "")
  {
    ChosenServes(world, table, req, BLANK_REPLY, e);
    assert (e.location + rest)[|e.location|..] == rest;
    NodeTold(world.lookup(docRoot, rest), req.uri);
  }

  // The object

  lemma EntriesForSnoc(added: seq<Entry>, e: Entry, verb: string)
    ensures EntriesFor(added + [e], verb) == EntriesFor(added, verb) + (if e.resource.Verb() == verb then [e] else [])
  {
    assert (added + [e])[..|added|] == added;
  }

  /** The row an entry is added to, before sorting. */
  function Extended(table: map<string, seq<Entry>>, e: Entry): seq<Entry> {
    var verb := e.resource.Verb();
    (if verb in table then table[verb] else []) + [e]
  }

  lemma AddKeepsRow(added: seq<Entry>, table: map<string, seq<Entry>>, e: Entry, sorted: seq<Entry>, verb: string)
    requires RowFor(added, table, verb)
    requires SortedByLength(sorted) && multiset(sorted) == multiset(Extended(table, e))
    ensures RowFor(added + [e], table[e.resource.Verb() := sorted], verb)
  {
    EntriesForSnoc(added, e, verb);
    assert e in multiset(Extended(table, e));
  }

  lemma AddKeepsTable(added: seq<Entry>, table: map<string, seq<Entry>>, e: Entry, sorted: seq<Entry>)
    requires TableFor(added, table)
    requires SortedByLength(sorted) && multiset(sorted) == multiset(Extended(table, e))
    ensures TableFor(added + [e], table[e.resource.Verb() := sorted])
  {
    var added', table' := added + [e], table[e.resource.Verb() := sorted];
    forall verb ensures RowFor(added', table', verb) {
      AddKeepsRow(added, table, e, sorted, verb);
    }
  }

  /** `std::sort` with the router's comparison: any of the entries left that have
      the greatest length may come next. */
  method SortEntries(entries: seq<Entry>) returns (sorted: seq<Entry>)
    ensures SortedByLength(sorted) && multiset(sorted) == multiset(entries)
  {
    sorted := [];
    var rest := entries;
    while rest != []
      invariant multiset(sorted) + multiset(rest) == multiset(entries)
      invariant SortedByLength(sorted)
      invariant forall e, f | e in sorted && f in rest :: |e.location| >= |f.location|
      decreases |rest|
    {
      var i := SomeLongest(rest);
      assert rest == rest[..i] + [rest[i]] + rest[i + 1..];
      sorted := sorted + [rest[i]];
      rest := rest[..i] + rest[i + 1..];
    }
  }

  method SomeLongest(entries: seq<Entry>) returns (i: nat)
    requires entries != []
    ensures i < |entries| && forall e | e in entries :: |e.location| <= |entries[i].location|
  {
    i := 0;
    for j := 1 to |entries|
      invariant i < |entries| && forall k | 0 <= k < j :: |entries[k].location| <= |entries[i].location|
    {
      if |entries[j].location| > |entries[i].location| {
        i := j;
      } else if |entries[j].location| == |entries[i].location| {
        if * {
          i := j;
        }
      }
    }
  }

  class PathRouter {
    const world: World
    var resources: map<string, seq<Entry>>
    /** All entries ever added, in order. */
    ghost var added: seq<Entry>

    ghost predicate Valid()
      reads this
    {
      TableFor(added, resources)
    }

    constructor (world: World)
      ensures Valid() && added == [] && this.world == world
    {
      this.world := world;
      resources := map[];
      added := [];
    }

    method Add(location: string, resource: Resource)
      requires Valid()
      modifies this
      ensures Valid() && added == old(added) + [Entry(location, resource)]
    {
      var verb := resource.Verb();
      var e := Entry(location, resource);
      var sorted := SortEntries(Extended(resources, e));
      AddKeepsTable(added, resources, e, sorted);
      resources := resources[verb := sorted];
      added := added + [e];
    }

    /** `operator()` */
    method Handle(req: RequestParser.HttpRequest, rep: ReplyObject)
      modifies rep
      ensures rep.Data() == Route(world, resources, req.Data(), old(rep.Data()))
    {
      var decoded, path := UrlDecode(req.uri);
      if !decoded {
        rep.Assign(Stock(BadRequest));
        return;
      }
      if path == "" || path[0] != '/' || HasDotDot(path) {
        rep.Assign(Stock(BadRequest));
        return;
      }
      var verb := req.verb;
      if verb == "HEAD" {
        verb := "GET";
      }
      if verb !in resources {
        rep.Assign(Stock(NotFound));
        return;
      }
      var entries := resources[verb];
      assert entries[0..] == entries;
      for i := 0 to |entries|
        invariant rep.Data() == old(rep.Data())
        invariant ServeFirst(world, entries[i..], path, req.Data(), old(rep.Data()))
                  == ServeFirst(world, entries, path, req.Data(), old(rep.Data()))
      {
        assert entries[i..][1..] == entries[i + 1..];
        var served := ServeIfMatch(world, entries[i], path, req, rep);
        if served {
          return;
        }
      }
      rep.Assign(Stock(NotFound));
    }
  }
}
