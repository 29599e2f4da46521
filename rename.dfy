/** The rename command's context collection: merge and deduplicate the
    symbol's locations, pick the symbol's text, resolve each location to its
    enclosing function, read those functions' text and build the prompt. */
module Rename {
  import opened Editor
  import opened Dedupe
  import opened Enclosing
  import opened Content
  import opened Prompt

  /** The symbol's text after the loop has seen `locations`: the loop reads
      the range of each location from the active document while the text it
      holds is still empty, so a location whose range reads as empty does
      not stop the next one from supplying the text. */
  function SymbolToRename(ws: Workspace, active: Uri, locations: seq<Location>): (r: string)
    ensures r == "" || exists i :: 0 <= i < |locations| && r == ws(active, locations[i].range)
    decreases |locations|
  {
    if locations == [] then ""
    else
      var before := SymbolToRename(ws, active, locations[..|locations| - 1]);
      if before == "" then ws(active, locations[|locations| - 1].range) else before
  }

  /** The symbol's text is the first non-empty text among the locations'
      ranges read from the active document, and empty when there is none. */
  lemma {:induction false} SymbolToRenameFirstNonEmpty(ws: Workspace, active: Uri, locations: seq<Location>)
    ensures var t := SymbolToRename(ws, active, locations);
      && (t == "" <==> forall i :: 0 <= i < |locations| ==> ws(active, locations[i].range) == "")
      && (t != "" ==>
            exists i :: 0 <= i < |locations| && t == ws(active, locations[i].range) &&
              (forall j :: 0 <= j < i ==> ws(active, locations[j].range) == ""))
    decreases |locations|
  {
    if locations != [] {
      var init := locations[..|locations| - 1];
      SymbolToRenameFirstNonEmpty(ws, active, init);
      var before := SymbolToRename(ws, active, init);
      if before != "" {
        var i :| 0 <= i < |init| && before == ws(active, init[i].range) &&
          forall j :: 0 <= j < i ==> ws(active, init[j].range) == "";
        assert forall j :: 0 <= j < i ==> init[j] == locations[j];
        assert init[i] == locations[i];
      } else {
        assert forall j :: 0 <= j < |init| ==> init[j] == locations[j];
      }
    }
  }

  /** With no locations the symbol's text is empty; when the first location's
      range reads as non-empty, that text is the symbol's text. */
  lemma SymbolToRenameFirst(ws: Workspace, active: Uri, locations: seq<Location>)
    ensures locations == [] ==> SymbolToRename(ws, active, locations) == ""
    ensures locations != [] && ws(active, locations[0].range) != "" ==>
      SymbolToRename(ws, active, locations) == ws(active, locations[0].range)
  {
  }

  /** The loop over the deduplicated locations: it sets the symbol's text and
      starts one enclosing-function lookup per location, in order. */
  method CollectResolutions(ws: Workspace, provider: SymbolProvider, active: Uri, locations: seq<Location>)
    returns (symbolToRename: string, symbolResolution: seq<Option<DocumentSymbol>>)
    ensures symbolToRename == SymbolToRename(ws, active, locations)
    ensures |symbolResolution| == |locations|
    ensures forall i :: 0 <= i < |locations| ==>
      symbolResolution[i] == GetEnclosingFunction(provider, locations[i])
  {
    symbolToRename := "";
    symbolResolution := [];
    for i := 0 to |locations|
      invariant symbolToRename == SymbolToRename(ws, active, locations[..i])
      invariant |symbolResolution| == i
      invariant forall k :: 0 <= k < i ==>
        symbolResolution[k] == GetEnclosingFunction(provider, locations[k])
    {
      var location := locations[i];
      assert locations[..i + 1][..i] == locations[..i];
      if symbolToRename == "" {
        symbolToRename := ws(active, location.range);
      }
      symbolResolution := symbolResolution + [GetEnclosingFunction(provider, location)];
    }
    assert locations[..|locations|] == locations;
  }

  /** The lookups' results once all of them have completed, in input order. */
  function ResolveAll(provider: SymbolProvider, locations: seq<Location>): (r: seq<Option<DocumentSymbol>>)
    ensures |r| == |locations|
    ensures forall i :: 0 <= i < |locations| ==> r[i] == GetEnclosingFunction(provider, locations[i])
  {
    if locations == [] then []
    else [GetEnclosingFunction(provider, locations[0])] + ResolveAll(provider, locations[1..])
  }

  /** Reference definition of the `symbol !== undefined` filter: the found
      symbols, in order. */
  function Present(resolved: seq<Option<DocumentSymbol>>): (r: seq<DocumentSymbol>)
    ensures |r| <= |resolved|
  {
    if resolved == [] then []
    else
      match resolved[0]
      case None => Present(resolved[1..])
      case Some(s) => [s] + Present(resolved[1..])
  }

  /** The filter keeps every found symbol and drops exactly the missing
      results: its length is the number of results less the missing ones. */
  lemma {:induction false} PresentSound(resolved: seq<Option<DocumentSymbol>>)
    ensures |Present(resolved)| == |resolved| - multiset(resolved)[None]
    ensures forall s :: s in Present(resolved) <==> Some(s) in resolved
  {
    if resolved != [] {
      PresentSound(resolved[1..]);
      assert resolved == [resolved[0]] + resolved[1..];
    }
  }

  /** The filter on a result followed by more results. */
  lemma PresentCons(x: Option<DocumentSymbol>, rest: seq<Option<DocumentSymbol>>)
    ensures Present([x] + rest) == (if x.Some? then [x.value] else []) + Present(rest)
  {
    assert ([x] + rest)[1..] == rest;
  }

  /** The filter keeps order: filtering two batches and joining the results
      is filtering the joined batch. */
  lemma {:induction false} PresentAppend(a: seq<Option<DocumentSymbol>>, b: seq<Option<DocumentSymbol>>)
    ensures Present(a + b) == Present(a) + Present(b)
  {
    if a == [] {
      assert a + b == b;
    } else {
      PresentAppend(a[1..], b);
      var here := if a[0].Some? then [a[0].value] else [];
      PresentCons(a[0], a[1..] + b);
      PresentCons(a[0], a[1..]);
      assert a + b == [a[0]] + (a[1..] + b);
      assert a == [a[0]] + a[1..];
      assert here + (Present(a[1..]) + Present(b)) == (here + Present(a[1..])) + Present(b);
    }
  }

  /** Nothing passes the filter when every result is missing. */
  lemma {:induction false} PresentAllMissing(resolved: seq<Option<DocumentSymbol>>)
    requires forall k :: 0 <= k < |resolved| ==> resolved[k].None?
    ensures Present(resolved) == []
  {
    if resolved != [] {
      PresentAllMissing(resolved[1..]);
    }
  }

  /** The filter followed by `map(symbol => new Location(document.uri, symbol.range))`:
      one location per found symbol, in order, each with the symbol's range
      and the uri of the ACTIVE document, whichever document the symbol was
      found in. */
  function ResolvedSymbolLocations(resolved: seq<Option<DocumentSymbol>>, active: Uri): (r: seq<Location>)
    ensures |r| == |Present(resolved)|
    ensures forall i :: 0 <= i < |r| ==> r[i] == Location(active, Present(resolved)[i].range)
  {
    InActiveDocument(Present(resolved), active)
  }

  /** `map(symbol => new Location(document.uri, symbol.range))`: each symbol's
      range as a location in the document `active`, in order. */
  function InActiveDocument(found: seq<DocumentSymbol>, active: Uri): (r: seq<Location>)
    ensures |r| == |found|
    ensures forall i :: 0 <= i < |r| ==> r[i].uri == active && r[i].range == found[i].range
  {
    if found == [] then []
    else [Location(active, found[0].range)] + InActiveDocument(found[1..], active)
  }

  /** What the command builds from the references and definitions of the
      symbol under the cursor in the active document: the preamble, the
      symbol's text and the instructions open it, and it holds one body per
      location that has an enclosing function. */
  function RenamePrompt(ws: Workspace, provider: SymbolProvider, active: Uri,
                        refs: seq<Location>, defs: seq<Location>): (r: string)
    ensures Goal + SymbolToRename(ws, active, MergeLocations(refs, defs)) + ReturnAndWarnings + Fence <= r
  {
    var locations := MergeLocations(refs, defs);
    var symbolToRename := SymbolToRename(ws, active, locations);
    var resolved := ResolveAll(provider, locations);
    var result := GetContentFromLocations(ws, ResolvedSymbolLocations(resolved, active));
    BuildPrompt(symbolToRename, result)
  }

  /** The command from the provider results to the prompt. */
  method BuildRenamePrompt(ws: Workspace, provider: SymbolProvider, active: Uri,
                           refLocations: seq<Location>, defLocations: seq<Location>)
    returns (llmSubmission: string)
    ensures llmSubmission == RenamePrompt(ws, provider, active, refLocations, defLocations)
  {
    var locations := MergeLocations(refLocations, defLocations);
    var symbolToRename, symbolResolution := CollectResolutions(ws, provider, active, locations);
    assert symbolResolution == ResolveAll(provider, locations);
    var resolvedSymbolLocations := ResolvedSymbolLocations(symbolResolution, active);
    var result := GetContentFromLocations(ws, resolvedSymbolLocations);
    llmSubmission := BuildPrompt(symbolToRename, result);
  }

  /** Every symbol the filter lets through is a function or method that
      the lookup found for one of the locations, from the start of that
      location's range. */
  lemma {:induction false} FoundAreEnclosing(provider: SymbolProvider, locations: seq<Location>)
    ensures var found := Present(ResolveAll(provider, locations));
      forall i :: 0 <= i < |found| ==>
        IsFunctionLike(found[i].kind) &&
        exists k :: 0 <= k < |locations| && found[i].range.Contains(locations[k].range.start)
  {
    var resolved := ResolveAll(provider, locations);
    var found := Present(resolved);
    PresentSound(resolved);
    forall i | 0 <= i < |found|
      ensures IsFunctionLike(found[i].kind)
      ensures exists k :: 0 <= k < |locations| && found[i].range.Contains(locations[k].range.start)
    {
      assert Some(found[i]) in resolved;
      var k :| 0 <= k < |resolved| && resolved[k] == Some(found[i]);
      assert resolved[k] == GetEnclosingFunction(provider, locations[k]);
    }
  }

  /** When no location resolves to an enclosing function, the fenced part of
      the prompt is empty. */
  lemma NoEnclosingEmptyBody(ws: Workspace, provider: SymbolProvider, active: Uri,
                             refs: seq<Location>, defs: seq<Location>)
    requires forall x :: x in MergeLocations(refs, defs) ==> GetEnclosingFunction(provider, x).None?
    ensures RenamePrompt(ws, provider, active, refs, defs) ==
      Goal + SymbolToRename(ws, active, MergeLocations(refs, defs)) + ReturnAndWarnings + Fence + Fence
  {
    var locations := MergeLocations(refs, defs);
    var resolved := ResolveAll(provider, locations);
    forall k | 0 <= k < |resolved| ensures resolved[k].None? {
      assert locations[k] in locations;
    }
    PresentAllMissing(resolved);
    var symbolToRename := SymbolToRename(ws, active, locations);
    var head := Goal + symbolToRename + ReturnAndWarnings + Fence;
    assert RenamePrompt(ws, provider, active, refs, defs) == BuildPrompt(symbolToRename, []);
    assert BuildPrompt(symbolToRename, []) == head + Join([], "\n") + Fence;
    assert Join([], "\n") == "" && head + "" == head;
  }

  /** A function `outer` holding a function `inner`, a reference and a
      definition of a symbol both inside `inner`, all in the active document:
      the two locations collapse to the reference, the symbol's text is the
      reference's text, and the prompt's single body is the text of `outer`,
      not of `inner`. */
  lemma NestedFunctionsScenario(ws: Workspace, provider: SymbolProvider, active: Uri,
                                reference: Location, definition: Location,
                                outer: DocumentSymbol, inner: DocumentSymbol)
    requires reference.uri == active && definition.uri == active
    requires outer.kind == Function && inner.kind == Function && outer.children == [inner]
    requires provider(active) == Some([outer])
    requires outer.range.Contains(reference.range.start)
    requires inner.range.Contains(reference.range.start)
    requires ws(active, reference.range) == "target"
    ensures RenamePrompt(ws, provider, active, [reference], [definition]) ==
      Goal + "target" + ReturnAndWarnings + Fence + ws(active, outer.range) + Fence
  {
    var locations := MergeLocations([reference], [definition]);
    DedupeLength([reference] + [definition]);
    assert Uris([reference] + [definition]) == {active};
    assert |locations| == 1;
    assert locations == [reference];
    assert locations[..0] == [];
    assert SymbolToRename(ws, active, locations) == "target";
    var resolved := ResolveAll(provider, locations);
    assert resolved == [Some(outer)];
    assert Present(resolved) == [outer];
    assert Join([ws(active, outer.range)], "\n") == ws(active, outer.range);
  }
}
