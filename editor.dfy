/** The slice of the editor host's API that the rename command relies on:
    document identities, positions, ranges, locations and the tree of
    document symbols. Only their shape and the `contains` test are modelled;
    the host's providers appear as parameters of the operations that use them. */
module Editor {

  datatype Option<T> = None | Some(value: T)

  /** A document identity. The command compares uris with `===`, which is
      identity of the uri objects the host hands out; the model only
      assumes that two uris can be told apart. */
  type Uri(==)

  /** A zero-based line and character offset. */
  datatype Position = Position(line: nat, character: nat)

  /** Positions are ordered by line, then by character. */
  predicate PositionLe(a: Position, b: Position)
  {
    a.line < b.line || (a.line == b.line && a.character <= b.character)
  }

  datatype Range = Range(start: Position, end: Position)
  {
    /** A range contains the positions from its start to its end, both ends included. */
    predicate Contains(p: Position)
    {
      PositionLe(start, p) && PositionLe(p, end)
    }
  }

  /** A range inside a particular document. */
  datatype Location = Location(uri: Uri, range: Range)

  /** The kinds a document symbol provider reports, in the host's order. */
  datatype SymbolKind =
    | File | Module | Namespace | Package | Class | Method | Property | Field
    | Constructor | Enum | Interface | Function | Variable | Constant | String
    | Number | Boolean | Array | Object | Key | Null | EnumMember | Struct
    | Event | Operator | TypeParameter

  /** The kinds the rename command treats as an enclosing body: only
      functions and methods (a constructor is not one). */
  predicate IsFunctionLike(k: SymbolKind)
  {
    k == Function || k == Method
  }

  /** A node of the symbol tree the host builds for one document. */
  datatype DocumentSymbol = DocumentSymbol(
    name: string,
    kind: SymbolKind,
    range: Range,
    children: seq<DocumentSymbol>)

  /** The text of every open or openable document, as the host would return
      it for `getText(range)` on the document with the given uri. */
  type Workspace = (Uri, Range) -> string

  /** The host's document symbol provider: a symbol tree per document, or
      nothing when the provider yields no result. */
  type SymbolProvider = Uri -> Option<seq<DocumentSymbol>>
}
