/** What the SQL parser reports about a statement, and the security rules. */
module Sql {
  datatype SQLType =
    | Select | Insert | Update | Delete
    | CreateTable | CreateIndex | AlterTable | Drop | Truncate | Rename
    | Show | Explain | Other
  {
    predicate IsDML() { Select? || Insert? || Update? || Delete? }

    predicate IsDDL() { CreateTable? || CreateIndex? || AlterTable? || Drop? || Truncate? || Rename? }

    function Name(): string
    {
      match this
      case Select => "SELECT"
      case Insert => "INSERT"
      case Update => "UPDATE"
      case Delete => "DELETE"
      case CreateTable => "CREATE_TABLE"
      case CreateIndex => "CREATE_INDEX"
      case AlterTable => "ALTER_TABLE"
      case Drop => "DROP"
      case Truncate => "TRUNCATE"
      case Rename => "RENAME"
      case Show => "SHOW"
      case Explain => "EXPLAIN"
      case Other => "OTHER"
    }
  }

  /** The parser's report; `Original` is the statement text. */
  datatype ParsedSQL = ParsedSQL(original: string, kind: SQLType, hasWhere: bool, hasLimit: bool)

  datatype SecurityRules = SecurityRules(
    allowedDML: seq<string>,
    allowedDDL: seq<string>,
    blocked: seq<string>,
    autoLimit: int,
    maxLimit: int,
    queryTimeout: int,
    maxRows: int)
}
