# llm-rename: context collection for a rename suggestion, in Dafny

The llm-rename editor extension asks a language model for new names for the
symbol under the cursor. Before it asks, it gathers context:

1. it concatenates the symbol's reference locations and definition locations,
   references first, and keeps only the first location of each document (uri);
2. it takes the symbol's text from the first of those locations whose range
   reads as non-empty in the active document;
3. for each kept location it searches the document's symbol tree for an
   enclosing function or method, from the start of the location's range;
4. it drops the locations with no enclosing function, turns each found symbol
   into a location (the symbol's range, in the active document), and reads the
   text of each;
5. it builds the prompt: a fixed preamble, the symbol's text, a fixed
   instruction block, and the bodies joined by newlines inside triple
   back-quote fences.

This project models those steps and proves what they guarantee. The files:

- `editor.dfy` (module `Editor`): the host's positions, ranges, uris,
  locations, symbol kinds and document symbols. `Range.Contains` is inclusive
  at both ends with positions ordered by line, then character. Uris are an
  abstract type compared with `==`. The source compares uri objects with
  `===`, which is identity, so two uri objects for the same file would count
  as different documents there.
- `dedupe.dfy` (module `Dedupe`): `findIndex` and the first-occurrence filter.
- `enclosing.dfy` (module `Enclosing`): the recursive symbol-tree search.
- `content.dfy` (module `Content`): reading the text of each location.
- `prompt.dfy` (module `Prompt`): the two prompt constants, `join`, and the
  prompt's assembly.
- `rename.dfy` (module `Rename`): the loop that picks the symbol's text and
  starts the lookups, the filter and map over the lookups' results, and the
  whole pipeline from provider results to prompt.

The host's providers and documents are parameters. `Workspace` gives the text
of a range in a document, and `SymbolProvider` gives the symbol tree of a
document, or nothing.

The model follows the code. In four places the code does something a
reader might not expect:

- The enclosing-function search returns the first function or method it
  reaches through containing symbols that are not functions. It never looks
  inside a function or method. So with a function `outer` holding a function
  `inner`, both containing the position, it returns `outer`, not the
  innermost `inner` (`Enclosing.OuterFunctionWins`,
  `Rename.NestedFunctionsScenario`).
- The symbol's text is not always the first location's text. The loop keeps
  reading ranges while the text it holds is empty, so the result is the first
  non-empty text (`Rename.SymbolToRenameFirstNonEmpty`).
- The found enclosing symbols are turned into locations in the active
  document, not in the document where they were found. Their bodies are read
  from the active document too (`Rename.ResolvedSymbolLocations`).
- The preamble runs straight into the symbol's text, with no space between them.

## Model

| member | source | states |
|---|---|---|
| `Dedupe.FindIndexFrom` | llm-rename/src/extension.ts:128 | the result is -1 when no location from `k` on has the uri; otherwise it is the first index from `k` on with that uri |
| `Dedupe.FindIndex` | llm-rename/src/extension.ts:128 | `findIndex` returns the first index whose uri matches; it returns -1 exactly when no location has that uri |
| `Dedupe.KeptAreFirst` | llm-rename/src/extension.ts:127-129 | every location the filter keeps is the first location of its uri in the merged list |
| `Dedupe.KeptInOrder` | llm-rename/src/extension.ts:127-129 | the kept locations come in the order in which their uris first appear |
| `Dedupe.FirstsAreKept` | llm-rename/src/extension.ts:127-129 | every first appearance of a uri is kept |
| `Dedupe.KeepFirstFrom` | llm-rename/src/extension.ts:127-129 | the filter applied from index `k` on keeps at most the locations it is given; what it keeps is stated by `KeptAreFirst`, `KeptInOrder` and `FirstsAreKept` |
| `Dedupe.Dedupe` | llm-rename/src/extension.ts:127-129 | the output's uris are pairwise distinct; it has exactly the input's uris; each kept location is the first one with its uri; the order is first-seen order, so the output is a subsequence of the input |
| `Dedupe.KeepFirstFromAllFirst` | llm-rename/src/extension.ts:127-129 | when every location from `k` on is the first of its uri, the filter keeps all of them |
| `Dedupe.DedupeDistinct` | llm-rename/src/extension.ts:127-129 | locations with pairwise distinct uris pass the filter unchanged |
| `Dedupe.DedupeIdempotent` | llm-rename/src/extension.ts:127-129 | applying the filter twice gives the same result as applying it once |
| `Dedupe.DedupeLength` | llm-rename/src/extension.ts:127-129 | the output length is the number of distinct uris, and the output is empty exactly when the input is |
| `Dedupe.MergeLocations` | llm-rename/src/extension.ts:127-129 | the merged list has one location per document that a reference or a definition mentions, and no document twice; which location is kept is stated by `MergeKeepsFirstReference` |
| `Dedupe.MergeKeepsFirstReference` | llm-rename/src/extension.ts:127 | references come before definitions: a uri that some reference has is kept as its first reference, and any other uri as its first definition |
| `Enclosing.FindEnclosing` | llm-rename/src/extension.ts:54-72 | a returned symbol is a function or method whose range contains the position |
| `Enclosing.GetEnclosingFunction` | llm-rename/src/extension.ts:36-51 | the result is absent when the provider yields no symbols; a returned symbol is a function or method containing the start of the location's range |
| `Enclosing.Candidates` | llm-rename/src/extension.ts:54-72 | reference definition of the search order: each candidate is a function or method containing the position |
| `Enclosing.FindEnclosingIsFirstCandidate` | llm-rename/src/extension.ts:55-71 | the search returns the first candidate in sibling order, and nothing when there is no candidate |
| `Enclosing.PathEndIsCandidate` | llm-rename/src/extension.ts:56-67 | a function or method reached through containing non-function ancestors is a candidate |
| `Enclosing.CandidateHasPath` | llm-rename/src/extension.ts:56-67 | every candidate is reached through ancestors that contain the position and are neither functions nor methods |
| `Enclosing.FindEnclosingReachable` | llm-rename/src/extension.ts:56-67 | every ancestor on the path to the returned symbol contains the position and is neither a function nor a method |
| `Enclosing.FindEnclosingNoneIff` | llm-rename/src/extension.ts:63-71 | the search returns nothing exactly when no path reaches a function or method |
| `Enclosing.OuterFunctionWins` | llm-rename/src/extension.ts:57-62 | a top-level function or method that contains the position, with no earlier sibling of any kind containing it, is returned whatever it contains; a function nested inside it is never returned |
| `Content.GetContentFromLocations` | llm-rename/src/extension.ts:25-33 | the output has one string per location, and output `i` is the text of location `i`'s range in its document |
| `Content.GetContentAppend` | llm-rename/src/extension.ts:26-32 | extracting a concatenation is the concatenation of the extractions, so the order is kept across the joined reads |
| `Prompt.Join` | llm-rename/src/extension.ts:152 | joining no parts gives the empty text; otherwise the joined text begins with the first part and ends with the last; `JoinLength` and `SplitJoin` state that exactly `n - 1` separators are inserted |
| `Prompt.JoinLength` | llm-rename/src/extension.ts:152 | for `n >= 1` parts, the joined length is the total length of the parts plus `n - 1` separators |
| `Prompt.SplitJoin` | llm-rename/src/extension.ts:152 | splitting a join of parts that contain no separator gives the parts back |
| `Prompt.BuildPrompt` | llm-rename/src/extension.ts:152 | the prompt opens with the preamble directly followed by the symbol's text, the instructions and a fence, and ends with a fence; `PromptParts` and `PromptInjective` read every part back |
| `Prompt.PromptParts` | llm-rename/src/extension.ts:152 | the prompt is the preamble, the symbol's text, the instructions, a fence, the joined bodies and a fence; the symbol and the body can be read back |
| `Prompt.PromptInjective` | llm-rename/src/extension.ts:152 | equal prompts for same-length symbols have equal symbols and equal joined bodies |
| `Prompt.PromptBodiesRecovered` | llm-rename/src/extension.ts:152 | with `n >= 1` newline-free bodies, the fenced part of the prompt splits back into exactly those bodies, so it holds `n - 1` separators |
| `Rename.SymbolToRename` | llm-rename/src/extension.ts:136-140 | the symbol's text is empty or is the text of one of the locations' ranges in the active document; `SymbolToRenameFirstNonEmpty` states which one |
| `Rename.SymbolToRenameFirstNonEmpty` | llm-rename/src/extension.ts:136-140 | the symbol's text is the first non-empty range text read from the active document; it is empty exactly when every such text is empty |
| `Rename.SymbolToRenameFirst` | llm-rename/src/extension.ts:136-140 | with no locations the text is empty; when the first location's text is non-empty, that text is used |
| `Rename.CollectResolutions` | llm-rename/src/extension.ts:134-142 | the loop sets the symbol's text as above and records one lookup per location, in order |
| `Rename.ResolveAll` | llm-rename/src/extension.ts:145 | the joined lookups give one result per location, in input order |
| `Rename.Present` | llm-rename/src/extension.ts:146-147 | the `!== undefined` filter keeps at most as many symbols as there are results; `PresentSound` and `PresentAppend` state that it keeps exactly the found symbols, in order |
| `Rename.PresentSound` | llm-rename/src/extension.ts:146-147 | the filter keeps exactly the found symbols; its length is the number of results minus the missing ones |
| `Rename.PresentAppend` | llm-rename/src/extension.ts:146-147 | filtering keeps order: it distributes over concatenation |
| `Rename.PresentAllMissing` | llm-rename/src/extension.ts:146-147 | when every lookup misses, nothing passes the filter |
| `Rename.ResolvedSymbolLocations` | llm-rename/src/extension.ts:146-148 | the filter followed by the map: one location per found symbol, in order, each with the symbol's range and the active document's uri |
| `Rename.InActiveDocument` | llm-rename/src/extension.ts:148 | the map gives one location per symbol, in order, with the symbol's range and the active document's uri, whichever document the symbol came from |
| `Rename.RenamePrompt` | llm-rename/src/extension.ts:127-152 | the whole pipeline: the prompt opens with the preamble, the text picked from the merged locations, the instructions and a fence; `NoEnclosingEmptyBody` and `NestedFunctionsScenario` pin down its bodies |
| `Rename.BuildRenamePrompt` | llm-rename/src/extension.ts:127-152 | the command computes the pipeline's prompt from the reference and definition locations |
| `Rename.FoundAreEnclosing` | llm-rename/src/extension.ts:141-148 | every symbol whose body enters the prompt is a function or method containing the start of some kept location |
| `Rename.NoEnclosingEmptyBody` | llm-rename/src/extension.ts:146-152 | when no location has an enclosing function, the fenced part of the prompt is empty |
| `Rename.NestedFunctionsScenario` | llm-rename/src/extension.ts:115-152 | a reference and a definition inside `inner`, nested in `outer`, collapse to the reference; the prompt carries its text and the body of `outer` |

## Left out

- The host calls are not modelled as code. These are opening documents, the reference, definition and document-symbol providers, and `getWordRangeAtPosition`. They are foreign, so they appear only as the parameters `Workspace` and `SymbolProvider`, or as the input sequences of locations.
- `postToOpenAi` (extension.ts:78-91) is left out. It is network I/O, and its call site is commented out.
- The hard-coded suggestion list (extension.ts:162) is left out. So are the decoration, the QuickPick and the final text replacement (extension.ts:164-203). These are user-interface effects.
- Token counting with `tiktoken` (extension.ts:153-154) and the output channel are left out. They only feed logging.
- Configuration reading (extension.ts:103-105) is left out. Its values are used only by the commented-out request.
- The terminal (extension.ts:111-112) and the location-count log (extension.ts:131-132) are left out. They are output only.
- The missing-editor early return (extension.ts:96-100) is left out. The model takes the active document's uri as a parameter.
- The `try/catch` (extension.ts:114, 206-208) is left out. A provider that returns no array makes the spread at line 127 throw. A failed `openTextDocument` or a provider call that throws rejects the `Promise.all` at line 32 or line 145. Either way the command ends in the catch at line 206, which only logs, and no prompt is built. The model's inputs are always sequences, and `Workspace` and `SymbolProvider` are total, so none of these failures occurs in it.
- The definition provider may answer with `LocationLink`s, which carry `targetUri` and `targetRange` and no `uri`. The source casts its answer to `Location[]` (extension.ts:121-125), and the model's `seq<Location>` likewise takes every answer to be a plain location.
- The concurrency of the lookups and reads (`Promise.all`) is not modelled. Only its order-preserving result is, as a sequential map.
- `vscode.Range` normalisation is not modelled. The host's constructor swaps a start that is after the end. Ranges here are taken as the providers give them.
- `deactivate` (extension.ts:212) is left out. It does nothing.
