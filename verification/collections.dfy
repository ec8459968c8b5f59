/**
 The collection query builder `execute_collection_query` (pg_graphql_mcp.py):
 operation name, root field and variables for one page of forward pagination
 (`first`/`after`, as in the Relay cursor connections convention).
 */
module Collections {
  import opened Wrappers
  import opened Json
  import Strings
  import Naming
  import Client
  import Catalog

  const QueryHead: string := "\n    query "
  const VariableDefinitions: string := "($first: Int, $after: String) {\n      "
  const SelectionTail: string :=
    "(first: $first, after: $after) {\n        edges {\n          node {\n            id\n"
    + "          }\n          cursor\n        }\n        pageInfo {\n          hasNextPage\n"
    + "          hasPreviousPage\n          endCursor\n          startCursor\n        }\n"
    + "      }\n    }\n    "

  /** `Get{name.capitalize()}Collection`. */
  function OperationName(name: string): string {
    "Get" + Strings.Capitalize(name) + Naming.Suffix
  }

  /** The query text up to the root field. */
  function QueryFront(name: string): string {
    QueryHead + OperationName(name) + VariableDefinitions
  }

  /** The query text the tool sends for a collection. */
  function QueryText(name: string): string {
    QueryFront(name) + Naming.RootField(name) + SelectionTail
  }

  /** Where the root field starts in the query text. */
  function RootOffset(name: string): nat {
    |QueryFront(name)|
  }

  /** The query text names the operation `Get<Name>Collection` right after `query `. */
  lemma OperationNameInQuery(name: string)
    ensures |QueryHead| + |OperationName(name)| <= |QueryText(name)|
    ensures QueryText(name)[|QueryHead|..|QueryHead| + |OperationName(name)|] == OperationName(name)
    ensures |OperationName(name)| == |name| + 13
  {
    var op := OperationName(name);
    var front := QueryFront(name);
    var lo, hi := |QueryHead|, |QueryHead| + |op|;
    Strings.SliceOfLeft(front + Naming.RootField(name), SelectionTail, lo, hi);
    Strings.SliceOfLeft(front, Naming.RootField(name), lo, hi);
    Strings.SliceOfLeft(QueryHead + op, VariableDefinitions, lo, hi);
    Strings.MiddleOfConcat(QueryHead, op, []);
    assert (QueryHead + op + [])[lo..hi] == (QueryHead + op)[lo..hi];
  }

  /** The query selects the root field `<name>Collection`, in the name's own casing. */
  lemma RootFieldInQuery(name: string)
    ensures RootOffset(name) + |name| + 10 <= |QueryText(name)|
    ensures QueryText(name)[RootOffset(name)..RootOffset(name) + |name| + 10] == Naming.RootField(name)
  {
    Strings.MiddleOfConcat(QueryFront(name), Naming.RootField(name), SelectionTail);
  }

  /** Different collection names give different queries: the text determines the name. */
  lemma {:induction false} QueryTextInjective(a: string, b: string)
    requires QueryText(a) == QueryText(b)
    ensures a == b
  {
    assert |QueryText(a)| == |QueryFront(a)| + |a| + 10 + |SelectionTail|;
    assert |QueryText(b)| == |QueryFront(b)| + |b| + 10 + |SelectionTail|;
    assert |a| == |b|;
    RootFieldInQuery(a);
    RootFieldInQuery(b);
    assert RootOffset(a) == RootOffset(b);
    assert Naming.RootField(a) == Naming.RootField(b);
    assert a == Naming.RootField(a)[..|a|];
    assert b == Naming.RootField(b)[..|b|];
  }

  /** `capitalize` lower-cases the rest of the name: `blogPost` is queried as `GetBlogpostCollection`. */
  lemma OperationNameOfBlogPost()
    ensures OperationName("blogPost") == "GetBlogpostCollection"
    ensures Naming.RootField("blogPost") == "blogPostCollection"
  {
  }

  /** The variables map: `first` always, `after` only when the cursor is truthy. */
  function Variables(first: int, after: Value): (vars: map<string, Value>)
    ensures vars.Keys == (if Truthy(after) then {"first", "after"} else {"first"})
    ensures vars["first"] == Num(first)
    ensures "after" in vars ==> vars["after"] == after
  {
    var base := map["first" := Num(first)];
    if Truthy(after) then base["after" := after] else base
  }

  /** The cursor argument as the tool signature gives it: `None` or a string. */
  function CursorArg(after: Option<string>): Value {
    match after
    case None => Null
    case Some(c) => Str(c)
  }

  /** A string cursor is bound exactly when it is non-empty; `None` and `""` are both left out. */
  lemma AfterBoundIffNonEmpty(first: int, after: Option<string>)
    ensures "after" in Variables(first, CursorArg(after)) <==> after.Some? && after.value != ""
    ensures after.Some? && after.value != "" ==> Variables(first, CursorArg(after))["after"] == Str(after.value)
  {
  }

  /**
   `execute_collection_query`: the transport receives the collection query with the
   variables map exactly as built (it is never empty, so `variables or {}` keeps it) and
   no operation name; `where` and `order_by` play no part.
   */
  function ExecuteCollectionQuery(transport: Value -> Client.Outcome, name: string, first: int, after: Value,
                                  where: Option<string>, orderBy: Option<string>): (r: Value)
    ensures r == Client.ToolOutput(Client.Classify(transport(
      Client.Encode(Client.Request(QueryText(name), Obj(Variables(first, after)), None)))))
  {
    Client.ToolOutput(Client.ExecuteQuery(transport, QueryText(name), Some(Obj(Variables(first, after))), None))
  }

  /** The filtering and ordering arguments are accepted and ignored. */
  lemma WhereAndOrderByIgnored(transport: Value -> Client.Outcome, name: string, first: int, after: Value,
                               w1: Option<string>, o1: Option<string>, w2: Option<string>, o2: Option<string>)
    ensures ExecuteCollectionQuery(transport, name, first, after, w1, o1)
         == ExecuteCollectionQuery(transport, name, first, after, w2, o2)
  {
  }

  /**
   A table listed by the catalog, queried by name, selects the very root field it was
   listed from.
   */
  lemma CatalogEntrySelectsItsField(fields: seq<Value>, tables: seq<Catalog.Table>, i: nat)
    requires Catalog.TablesOf(fields) == Some(tables)
    requires i < |tables|
    ensures exists k :: 0 <= k < |fields| && Catalog.FieldName(fields[k]) == Some(SelectedField(tables[i].name))
  {
    var name := tables[i].name;
    var k := Catalog.EntrySource(fields, tables, i);
    SelectedFieldIsRoot(name);
    assert Catalog.FieldName(fields[k]) == Some(SelectedField(name));
  }

  /** The text at the root offset is the collection's root field. */
  lemma SelectedFieldIsRoot(name: string)
    ensures RootOffset(name) + |name| + 10 <= |QueryText(name)|
    ensures SelectedField(name) == Naming.RootField(name)
  {
    RootFieldInQuery(name);
  }

  /** The root field the query text selects, read off the text at its offset. */
  function SelectedField(name: string): string {
    var text := QueryText(name);
    var start := RootOffset(name);
    if start + |name| + 10 <= |text| then text[start..start + |name| + 10] else ""
  }
}
