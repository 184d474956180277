/** Query strings (src/lib/dynamic_content.cpp, `handle_query_parameters`). */
module Query {
  import opened Text
  import PathPattern

  /** What is left of the stream after one piece. */
  function AfterPiece(query: string): (rest: string)
    ensures query != "" ==> |rest| < |query|
  {
    var n := Find(query, '&');
    if n < |query| then query[n + 1..] else ""
  }

  function FirstPiece(query: string): string {
    query[..Find(query, '&')]
  }

  /** What `std::getline(stream, piece, '&')` reads until the stream runs out. */
  function Pieces(query: string): seq<string>
    decreases |query|
  {
    if query == "" then [] else [FirstPiece(query)] + Pieces(AfterPiece(query))
  }

  /** All stretches between separators, of which there is always at least one. */
  function SplitAll(query: string): (parts: seq<string>)
    ensures parts != []
    decreases |query|
  {
    if Find(query, '&') < |query| then [FirstPiece(query)] + SplitAll(AfterPiece(query)) else [query]
  }

  function WithoutEmptyEnd(parts: seq<string>): seq<string>
    requires parts != []
  {
    var n := |parts| - 1;
    if parts[n] == "" then parts[..n] else parts
  }

  lemma WithoutEmptyEndCons(first: string, rest: seq<string>)
    requires rest != []
    ensures WithoutEmptyEnd([first] + rest) == [first] + WithoutEmptyEnd(rest)
  {
    var parts := [first] + rest;
    assert parts[|parts| - 1] == rest[|rest| - 1];
    assert parts[..|parts| - 1] == [first] + rest[..|rest| - 1];
  }

  lemma OnePiece(query: string)
    requires Find(query, '&') == |query|
    ensures FirstPiece(query) == query && AfterPiece(query) == ""
    ensures Pieces(query) == WithoutEmptyEnd([query])
  {
  }

  /** The pieces are the stretches between separators, less one empty one at the end. */
  lemma {:induction false} PiecesAreSplit(query: string)
    ensures Pieces(query) == WithoutEmptyEnd(SplitAll(query))
    decreases |query|
  {
    if Find(query, '&') < |query| {
      PiecesAreSplit(AfterPiece(query));
      WithoutEmptyEndCons(FirstPiece(query), SplitAll(AfterPiece(query)));
    } else {
      OnePiece(query);
    }
  }

  function Pairs(pieces: seq<string>): seq<(string, string)> {
    seq(|pieces|, i requires 0 <= i < |pieces| => PathPattern.Split(pieces[i], '='))
  }

  /** The parameters of a query: later pieces overwrite earlier ones. */
  function QueryMap(query: string): map<string, string> {
    MapOf(Pairs(Pieces(query)))
  }

  // Round trip

  function PairText(pair: (string, string)): string {
    pair.0 + "=" + pair.1
  }

  function Join(pairs: seq<(string, string)>): string {
    if pairs == [] then ""
    else if |pairs| == 1 then PairText(pairs[0])
    else PairText(pairs[0]) + "&" + Join(pairs[1..])
  }

  predicate Sendable(pairs: seq<(string, string)>) {
    forall i | 0 <= i < |pairs| :: '&' !in pairs[i].0 && '=' !in pairs[i].0 && '&' !in pairs[i].1
  }

  lemma PieceJoined(piece: string, rest: string)
    requires '&' !in piece
    ensures FirstPiece(piece + "&" + rest) == piece && AfterPiece(piece + "&" + rest) == rest
    ensures FirstPiece(piece) == piece && AfterPiece(piece) == ""
  {
    var query := piece + "&" + rest;
    assert query[..|piece|] == piece && query[|piece| + 1..] == rest;
    FindIs(query, '&', |piece|);
    assert piece[..|piece|] == piece;
    FindIs(piece, '&', |piece|);
  }

  lemma PairsCons(first: string, pieces: seq<string>)
    ensures Pairs([first] + pieces) == [PathPattern.Split(first, '=')] + Pairs(pieces)
  {
  }

  lemma PairTextHasNo(pair: (string, string), c: char)
    requires c !in pair.0 && c !in pair.1 && c != '='
    ensures c !in PairText(pair) && PairText(pair) != ""
  {
  }

  lemma JoinedPieces(pairs: seq<(string, string)>)
    requires Sendable(pairs) && pairs != []
    ensures Pieces(Join(pairs)) == [PairText(pairs[0])] + Pieces(Join(pairs[1..]))
  {
    PairTextHasNo(pairs[0], '&');
    PieceJoined(PairText(pairs[0]), Join(pairs[1..]));
  }

  lemma {:induction false} JoinPairs(pairs: seq<(string, string)>)
    requires Sendable(pairs)
    ensures Pairs(Pieces(Join(pairs))) == pairs
  {
    if pairs != [] {
      JoinedPieces(pairs);
      PairsCons(PairText(pairs[0]), Pieces(Join(pairs[1..])));
      PathPattern.SplitJoined(pairs[0].0, '=', pairs[0].1);
      JoinPairs(pairs[1..]);
    }
  }

  /** Joining pairs as "k=v" with '&' and reading them back gives their last-wins map. */
  lemma QueryRoundTrip(pairs: seq<(string, string)>)
    requires Sendable(pairs)
    ensures QueryMap(Join(pairs)) == MapOf(pairs)
  {
    JoinPairs(pairs);
  }

  lemma {:induction false} PiecesLackSeparator(query: string, piece: string)
    requires piece in Pieces(query)
    ensures '&' !in piece
    decreases |query|
  {
    if piece != FirstPiece(query) {
      PiecesLackSeparator(AfterPiece(query), piece);
    }
  }

  /** No key can be read with '&' or '=' in it, and no value with '&'. */
  lemma ReadPair(query: string, key: string)
    requires key in QueryMap(query)
    ensures '&' !in key && '=' !in key && '&' !in QueryMap(query)[key]
  {
    var pieces := Pieces(query);
    MapOfEntry(Pairs(pieces), key);
    var i :| 0 <= i < |pieces| && Pairs(pieces)[i] == (key, QueryMap(query)[key]);
    PiecesLackSeparator(query, pieces[i]);
    PathPattern.SplitLacks(pieces[i], '=', '&');
  }

  predicate DistinctKeys(pairs: seq<(string, string)>) {
    forall i, j | 0 <= i < j < |pairs| :: pairs[i].0 != pairs[j].0
  }

  lemma ReadBackIsSendable(pairs: seq<(string, string)>)
    requires DistinctKeys(pairs) && QueryMap(Join(pairs)) == MapOf(pairs)
    ensures Sendable(pairs)
  {
    forall i | 0 <= i < |pairs| ensures '&' !in pairs[i].0 && '=' !in pairs[i].0 && '&' !in pairs[i].1 {
      MapOfLastWins(pairs, i);
      ReadPair(Join(pairs), pairs[i].0);
    }
  }

  /** Pairs with distinct keys are read back exactly when no key has '&' or '=' in it
      and no value '&'. */
  lemma ReadBackExactly(pairs: seq<(string, string)>)
    requires DistinctKeys(pairs)
    ensures QueryMap(Join(pairs)) == MapOf(pairs) <==> Sendable(pairs)
  {
    if Sendable(pairs) {
      QueryRoundTrip(pairs);
    } else if QueryMap(Join(pairs)) == MapOf(pairs) {
      ReadBackIsSendable(pairs);
    }
  }

  lemma MapOfOne(pair: (string, string))
    ensures MapOf([pair]) == map[pair.0 := pair.1]
  {
    assert [pair][..0] == [];
  }

  lemma MapOfTwo(first: (string, string), second: (string, string))
    ensures MapOf([first, second]) == map[first.0 := first.1][second.0 := second.1]
  {
    assert [first, second][..1] == [first];
    MapOfOne(first);
  }

  lemma KeyPieces(key: string)
    requires '&' !in key && '=' !in key && key != ""
    ensures Pairs(Pieces(key)) == [(key, "")]
  {
    PieceJoined(key, "");
    PathPattern.SplitJoined(key, '=', "");
  }

  lemma KeyAlone(key: string)
    requires '&' !in key && '=' !in key && key != ""
    ensures QueryMap(key) == map[key := ""]
  {
    KeyPieces(key);
    MapOfOne((key, ""));
  }

  /** An '&' in a value ends it: what follows is read as another key. */
  lemma AmpersandInValue(key: string, value: string, rest: string)
    requires '&' !in key && '=' !in key && '&' !in value && '&' !in rest && '=' !in rest && rest != ""
    ensures QueryMap(Join([(key, value + "&" + rest)])) == map[key := value][rest := ""]
  {
    var first := PairText((key, value));
    PairTextHasNo((key, value), '&');
    Assoc(key + "=", value, "&" + rest);
    assert Join([(key, value + "&" + rest)]) == first + "&" + rest;
    PieceJoined(first, rest);
    assert Pieces(first + "&" + rest) == [first] + Pieces(rest);
    PairsCons(first, Pieces(rest));
    PathPattern.SplitJoined(key, '=', value);
    KeyPieces(rest);
    assert [(key, value)] + [(rest, "")] == [(key, value), (rest, "")];
    MapOfTwo((key, value), (rest, ""));
  }

  /** An '=' in a key ends it: what follows becomes part of the value. */
  lemma EqualsInKey(key: string, rest: string, value: string)
    requires '&' !in key && '=' !in key && '&' !in rest && '&' !in value
    ensures QueryMap(Join([(key + "=" + rest, value)])) == map[key := rest + "=" + value]
  {
    var pair := (key, rest + "=" + value);
    PairTextHasNo(pair, '&');
    assert Join([(key + "=" + rest, value)]) == PairText(pair);
    PieceJoined(PairText(pair), "");
    assert Pieces(PairText(pair)) == [PairText(pair)];
    PathPattern.SplitJoined(key, '=', pair.1);
    assert Pairs([PairText(pair)]) == [pair];
    MapOfOne(pair);
  }

  // The two loops

  lemma NextPiece(done: seq<string>, rest: string)
    requires rest != ""
    ensures done + Pieces(rest) == done + [FirstPiece(rest)] + Pieces(AfterPiece(rest))
  {
    Assoc(done, [FirstPiece(rest)], Pieces(AfterPiece(rest)));
  }

  method ReadPieces(query: string) returns (pieces: seq<string>)
    ensures pieces == Pieces(query)
  {
    pieces := [];
    var rest := query;
    while rest != ""
      invariant Pieces(query) == pieces + Pieces(rest)
      decreases |rest|
    {
      NextPiece(pieces, rest);
      var n := Find(rest, '&');
      pieces := pieces + [rest[..n]];
      rest := if n < |rest| then rest[n + 1..] else "";
    }
    assert pieces + [] == pieces;
  }

  lemma NextPair(pieces: seq<string>, i: nat)
    requires i < |pieces|
    ensures var pairs, keyValue := Pairs(pieces), PathPattern.Split(pieces[i], '=');
            MapOf(pairs[..i + 1]) == MapOf(pairs[..i])[keyValue.0 := keyValue.1]
  {
    var pairs := Pairs(pieces);
    assert pairs[..i + 1][..i] == pairs[..i] && pairs[..i + 1][i] == PathPattern.Split(pieces[i], '=');
  }

  method HandleQueryParameters(query: string) returns (values: map<string, string>)
    ensures values == QueryMap(query)
  {
    var pieces := ReadPieces(query);
    values := map[];
    for i := 0 to |pieces|
      invariant values == MapOf(Pairs(pieces)[..i])
    {
      var keyValue := PathPattern.Split(pieces[i], '=');
      values := values[keyValue.0 := keyValue.1];
      NextPair(pieces, i);
    }
    assert Pairs(pieces)[..|pieces|] == Pairs(pieces);
  }
}
