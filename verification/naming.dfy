/** The convention that ties a table `T` to its GraphQL root field `TCollection`. */
module Naming {
  import Strings

  const Suffix: string := "Collection"
  /** Names beginning with two underscores are reserved for introspection by the GraphQL specification. */
  const ReservedPrefix: string := "__"

  /** The root field that serves a table. */
  function RootField(table: string): (field: string)
    ensures Strings.EndsWith(field, Suffix)
    ensures |field| == |table| + 10
  {
    table + Suffix
  }

  /** The table a root field serves: the field name without its last 10 characters. */
  function TableName(field: string): (table: string)
    requires Strings.EndsWith(field, Suffix)
    ensures RootField(table) == field
  {
    field[..|field| - 10]
  }

  /** Appending the suffix and then stripping it gives the table name back. */
  lemma TableNameOfRootField(table: string)
    ensures TableName(RootField(table)) == table
  {
    assert RootField(table)[..|table|] == table;
  }
}
