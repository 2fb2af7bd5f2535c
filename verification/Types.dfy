/** Symbols and edges of the symbol graph. */
module Types {
  import opened Wrappers

  datatype Kind =
    | Function | Method | Const | Static | Struct | Enum | TypeAlias | Class
    | Interface | Module | Field | Variant | Impl | Event | Error | Document

  datatype Symbol = Symbol(
    id: nat, kind: Kind, name: string, qualified: string, fileIdx: nat,
    line: nat, endLine: nat, parent: Option<nat>)

  datatype EdgeKind = Call | Ref

  datatype Target = Unresolved(name: string) | Resolved(id: nat) | External(name: string)

  datatype Edge = Edge(from: nat, to: Target, kind: EdgeKind, line: nat)
}
