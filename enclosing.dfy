/** Finding the function or method that encloses a location, by a
    depth-first search over the document's symbol tree. */
module Enclosing {
  import opened Editor

  /** The search over a list of sibling symbols. Siblings are tried in order;
      a sibling whose range contains `p` is returned at once when it is a
      function or a method, and otherwise its children are searched, a hit
      there ending the search and a miss moving on to the next sibling. The
      search never looks inside a function or method, so of two nested
      functions that both contain `p` it returns the outer one. */
  function FindEnclosing(symbols: seq<DocumentSymbol>, p: Position): (r: Option<DocumentSymbol>)
    ensures r.Some? ==> IsFunctionLike(r.value.kind) && r.value.range.Contains(p)
    decreases symbols
  {
    if symbols == [] then None
    else
      var s := symbols[0];
      if s.range.Contains(p) && IsFunctionLike(s.kind) then Some(s)
      else if s.range.Contains(p) && |s.children| > 0 && FindEnclosing(s.children, p).Some? then
        FindEnclosing(s.children, p)
      else FindEnclosing(symbols[1..], p)
  }

  /** The enclosing function of a location: the search above from the start
      of the location's range over the tree the symbol provider returns for
      the location's document, or nothing when the provider returns nothing. */
  function GetEnclosingFunction(provider: SymbolProvider, location: Location): (r: Option<DocumentSymbol>)
    ensures provider(location.uri).None? ==> r.None?
    ensures r.Some? ==> IsFunctionLike(r.value.kind) && r.value.range.Contains(location.range.start)
  {
    match provider(location.uri)
    case None => None
    case Some(symbols) => FindEnclosing(symbols, location.range.start)
  }

  /** Reference definition: every function or method the search may stop at,
      in the order the search reaches them. A symbol contributes itself when
      it contains `p` and is a function or method, the candidates among its
      children when it contains `p` and is anything else, and nothing when it
      does not contain `p`. */
  function Candidates(symbols: seq<DocumentSymbol>, p: Position): (r: seq<DocumentSymbol>)
    ensures forall f :: f in r ==> IsFunctionLike(f.kind) && f.range.Contains(p)
    decreases symbols
  {
    if symbols == [] then []
    else
      var s := symbols[0];
      var here :=
        if !s.range.Contains(p) then []
        else if IsFunctionLike(s.kind) then [s]
        else Candidates(s.children, p);
      here + Candidates(symbols[1..], p)
  }

  /** `path` leads from a symbol of `symbols` down through children to a
      function or method: every symbol on it contains `p`, and every symbol
      before the last is neither a function nor a method. */
  ghost predicate IsPath(symbols: seq<DocumentSymbol>, path: seq<DocumentSymbol>, p: Position)
  {
    && |path| > 0
    && path[0] in symbols
    && (forall i :: 0 <= i < |path| - 1 ==> path[i + 1] in path[i].children)
    && (forall i :: 0 <= i < |path| ==> path[i].range.Contains(p))
    && (forall i :: 0 <= i < |path| - 1 ==> !IsFunctionLike(path[i].kind))
    && IsFunctionLike(path[|path| - 1].kind)
  }

  /** The search returns the first candidate, and nothing when there is none. */
  lemma {:induction false} FindEnclosingIsFirstCandidate(symbols: seq<DocumentSymbol>, p: Position)
    ensures FindEnclosing(symbols, p) ==
      if Candidates(symbols, p) == [] then None else Some(Candidates(symbols, p)[0])
    decreases symbols
  {
    if symbols != [] {
      var s := symbols[0];
      FindEnclosingIsFirstCandidate(symbols[1..], p);
      if s.range.Contains(p) && !IsFunctionLike(s.kind) {
        FindEnclosingIsFirstCandidate(s.children, p);
      }
    }
  }

  /** Candidates of a symbol's children are candidates of the list holding
      the symbol, provided the symbol contains `p` and is not a function. */
  lemma {:induction false} ChildCandidates(symbols: seq<DocumentSymbol>, i: nat, p: Position)
    requires i < |symbols|
    requires symbols[i].range.Contains(p) && !IsFunctionLike(symbols[i].kind)
    ensures forall f :: f in Candidates(symbols[i].children, p) ==> f in Candidates(symbols, p)
  {
    if i > 0 {
      ChildCandidates(symbols[1..], i - 1, p);
    }
  }

  /** A function or method of `symbols` that contains `p` is a candidate. */
  lemma {:induction false} TopCandidate(symbols: seq<DocumentSymbol>, i: nat, p: Position)
    requires i < |symbols|
    requires symbols[i].range.Contains(p) && IsFunctionLike(symbols[i].kind)
    ensures symbols[i] in Candidates(symbols, p)
  {
    if i > 0 {
      TopCandidate(symbols[1..], i - 1, p);
    }
  }

  /** The end of every path is a candidate. */
  lemma {:induction false} PathEndIsCandidate(symbols: seq<DocumentSymbol>, path: seq<DocumentSymbol>, p: Position)
    requires IsPath(symbols, path, p)
    ensures path[|path| - 1] in Candidates(symbols, p)
    decreases |path|
  {
    var i :| 0 <= i < |symbols| && symbols[i] == path[0];
    if |path| == 1 {
      TopCandidate(symbols, i, p);
    } else {
      var rest := path[1..];
      assert IsPath(path[0].children, rest, p) by {
        forall k | 0 <= k < |rest| - 1 ensures rest[k + 1] in rest[k].children {
          assert rest[k] == path[k + 1] && rest[k + 1] == path[k + 2];
        }
        forall k | 0 <= k < |rest| ensures rest[k].range.Contains(p) {
          assert rest[k] == path[k + 1];
        }
        forall k | 0 <= k < |rest| - 1 ensures !IsFunctionLike(rest[k].kind) {
          assert rest[k] == path[k + 1];
        }
      }
      PathEndIsCandidate(path[0].children, rest, p);
      ChildCandidates(symbols, i, p);
    }
  }

  /** A path below a containing symbol that is not a function extends to a
      path from the list holding that symbol. */
  lemma PrependToPath(symbols: seq<DocumentSymbol>, s: DocumentSymbol, tail: seq<DocumentSymbol>, p: Position)
    requires s in symbols && s.range.Contains(p) && !IsFunctionLike(s.kind)
    requires IsPath(s.children, tail, p)
    ensures IsPath(symbols, [s] + tail, p) && ([s] + tail)[|tail|] == tail[|tail| - 1]
  {
  }

  /** Every candidate is the end of a path. */
  lemma {:induction false} CandidateHasPath(symbols: seq<DocumentSymbol>, f: DocumentSymbol, p: Position)
    requires f in Candidates(symbols, p)
    ensures exists path :: IsPath(symbols, path, p) && path[|path| - 1] == f
    decreases symbols
  {
    var s := symbols[0];
    if s.range.Contains(p) && IsFunctionLike(s.kind) && f == s {
      assert IsPath(symbols, [s], p);
    } else if s.range.Contains(p) && !IsFunctionLike(s.kind) && f in Candidates(s.children, p) {
      CandidateHasPath(s.children, f, p);
      var tail :| IsPath(s.children, tail, p) && tail[|tail| - 1] == f;
      PrependToPath(symbols, s, tail, p);
    } else {
      CandidateHasPath(symbols[1..], f, p);
      var path :| IsPath(symbols[1..], path, p) && path[|path| - 1] == f;
      assert IsPath(symbols, path, p);
    }
  }

  /** When the search returns a symbol, that symbol is reached from the top
      of the tree through symbols that all contain `p` and none of which is
      a function or method. */
  lemma FindEnclosingReachable(symbols: seq<DocumentSymbol>, p: Position)
    ensures FindEnclosing(symbols, p).Some? ==>
      exists path :: IsPath(symbols, path, p) && path[|path| - 1] == FindEnclosing(symbols, p).value
  {
    FindEnclosingIsFirstCandidate(symbols, p);
    if FindEnclosing(symbols, p).Some? {
      CandidateHasPath(symbols, Candidates(symbols, p)[0], p);
    }
  }

  /** The search comes back empty exactly when no function or method is
      reachable through containing symbols that are not themselves functions
      or methods. */
  lemma FindEnclosingNoneIff(symbols: seq<DocumentSymbol>, p: Position)
    ensures FindEnclosing(symbols, p).None? <==> forall path :: !IsPath(symbols, path, p)
  {
    FindEnclosingIsFirstCandidate(symbols, p);
    if FindEnclosing(symbols, p).None? {
      forall path | IsPath(symbols, path, p) ensures false {
        PathEndIsCandidate(symbols, path, p);
      }
    } else {
      FindEnclosingReachable(symbols, p);
    }
  }

  /** A top-level function or method containing `p`, with no earlier sibling
      of any kind containing `p`, is returned whatever it contains. The
      second clause spells out the consequence of the first that matters
      here: a function nested in it is never returned, even when it contains
      `p` too, since a symbol is never among its own children. */
  lemma {:induction false} OuterFunctionWins(symbols: seq<DocumentSymbol>, i: nat, p: Position)
    requires i < |symbols|
    requires symbols[i].range.Contains(p) && IsFunctionLike(symbols[i].kind)
    requires forall j :: 0 <= j < i ==> !symbols[j].range.Contains(p)
    ensures FindEnclosing(symbols, p) == Some(symbols[i])
    ensures forall inner :: inner in symbols[i].children ==> FindEnclosing(symbols, p) != Some(inner)
  {
    if i > 0 {
      OuterFunctionWins(symbols[1..], i - 1, p);
    }
  }
}
