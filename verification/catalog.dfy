/**
 The table catalog `list_tables` (pg_graphql_mcp.py): the root query fields the
 introspection reply lists, filtered to collections and stripped of their suffix.
 */
module Catalog {
  import opened Wrappers
  import opened Json
  import Strings
  import Seqs
  import Naming
  import Client

  /** The introspection query `list_tables` sends. */
  const ListTablesQuery: string :=
    "\n    query ListTables {\n      __schema {\n        queryType {\n          fields {\n"
    + "            name\n            description\n            type {\n              kind\n"
    + "              name\n              ofType {\n                kind\n                name\n"
    + "              }\n            }\n          }\n        }\n      }\n    }\n    "

  /** One catalog entry; its `type` is always "collection". */
  datatype Table = Table(name: string, description: Value)

  /** What a tool function hands back: JSON text (denoted by its value), or the bare dict itself. */
  datatype ToolReturn = Text(value: Value) | Unserialized(value: Value)

  /** A root field name the catalog lists: not reserved, and ending in the collection suffix. */
  predicate Listed(name: string) {
    !Strings.StartsWith(name, Naming.ReservedPrefix) && Strings.EndsWith(name, Naming.Suffix)
  }

  /** `field["name"]`, which must be a string for `startswith` to apply. */
  function FieldName(field: Value): Option<string> {
    match Index(field, "name")
    case Some(Str(n)) => Some(n)
    case _ => None
  }

  /** A field entry the catalog keeps. */
  predicate IsListedField(field: Value) {
    FieldName(field).Some? && Listed(FieldName(field).value)
  }

  /** The entry for a kept field: its name stripped, its description or "" when the key is absent. */
  function TableOf(field: Value): (t: Table)
    requires IsListedField(field)
    ensures Naming.RootField(t.name) == FieldName(field).value
    ensures t.description == if "description" in field.fields then field.fields["description"] else Str("")
  {
    Table(Naming.TableName(FieldName(field).value), Get(field, "description", Str("")).value)
  }

  function TablesFrom(fields: seq<Value>): seq<Table>
    requires forall k :: 0 <= k < |fields| ==> IsListedField(fields[k])
  {
    seq(|fields|, k requires 0 <= k < |fields| => TableOf(fields[k]))
  }

  lemma TablesFromCons(field: Value, fields: seq<Value>)
    requires IsListedField(field)
    requires forall k :: 0 <= k < |fields| ==> IsListedField(fields[k])
    ensures TablesFrom([field] + fields) == [TableOf(field)] + TablesFrom(fields)
  {
  }

  /**
   The loop over the field list. It raises when some field has no string `name`;
   otherwise it lists the kept fields, in server order.
   */
  function TablesOf(fields: seq<Value>): (r: Option<seq<Table>>)
    ensures r.Some? <==> forall k :: 0 <= k < |fields| ==> FieldName(fields[k]).Some?
    ensures r.Some? ==> r.value == TablesFrom(Seqs.Filter(IsListedField, fields))
    decreases |fields|
  {
    if fields == [] then Some([])
    else
      var name := FieldName(fields[0]);
      var rest := TablesOf(fields[1..]);
      assert forall k :: 1 <= k < |fields| ==> fields[k] == fields[1..][k - 1];
      if name.None? || rest.None? then None
      else if Listed(name.value) then
        TablesFromCons(fields[0], Seqs.Filter(IsListedField, fields[1..]));
        Some([TableOf(fields[0])] + rest.value)
      else rest
  }

  /**
   Every catalog entry names a real, non-reserved root field, and every such field has
   an entry: the catalog is exactly the collection fields, in server order.
   */
  lemma {:induction false} CatalogMatchesFields(fields: seq<Value>, tables: seq<Table>)
    requires TablesOf(fields) == Some(tables)
    ensures |tables| == Seqs.Count(IsListedField, fields)
    ensures forall i :: 0 <= i < |tables| ==>
      exists k :: 0 <= k < |fields| && FieldName(fields[k]) == Some(Naming.RootField(tables[i].name))
    ensures forall i :: 0 <= i < |tables| ==> Listed(Naming.RootField(tables[i].name))
    ensures forall k :: 0 <= k < |fields| && IsListedField(fields[k]) ==>
      exists i :: 0 <= i < |tables| && Naming.RootField(tables[i].name) == FieldName(fields[k]).value
  {
    var kept := Seqs.Filter(IsListedField, fields);
    Seqs.FilterLength(IsListedField, fields);
    forall i | 0 <= i < |tables|
      ensures exists k :: 0 <= k < |fields| && FieldName(fields[k]) == Some(Naming.RootField(tables[i].name))
    {
      var k :| 0 <= k < |fields| && fields[k] == kept[i];
      assert FieldName(fields[k]) == Some(Naming.RootField(tables[i].name));
    }
    forall k | 0 <= k < |fields| && IsListedField(fields[k])
      ensures exists i :: 0 <= i < |tables| && Naming.RootField(tables[i].name) == FieldName(fields[k]).value
    {
      var i :| 0 <= i < |kept| && kept[i] == fields[k];
      assert Naming.RootField(tables[i].name) == FieldName(fields[k]).value;
    }
  }

  /** The position in the field list an entry of the catalog was listed from. */
  lemma EntrySource(fields: seq<Value>, tables: seq<Table>, i: nat) returns (k: nat)
    requires TablesOf(fields) == Some(tables)
    requires i < |tables|
    ensures k < |fields| && FieldName(fields[k]) == Some(Naming.RootField(tables[i].name))
  {
    CatalogMatchesFields(fields, tables);
    k :| 0 <= k < |fields| && FieldName(fields[k]) == Some(Naming.RootField(tables[i].name));
  }

  /** Where the field list sits in the reply, or why `list_tables` gets no list. */
  datatype SchemaLookup = Raises | NoSchema | Fields(fields: seq<Value>)

  /** `"data" in result and "__schema" in result["data"]`, then `["__schema"]["queryType"]["fields"]`. */
  function LookupSchema(result: Value): SchemaLookup {
    match Member("data", result)
    case None => Raises
    case Some(false) => NoSchema
    case Some(true) =>
      match Index(result, "data")
      case None => Raises
      case Some(data) =>
        match Member("__schema", data)
        case None => Raises
        case Some(false) => NoSchema
        case Some(true) =>
          var schema := Index(data, "__schema");
          var queryType := if schema.Some? then Index(schema.value, "queryType") else None;
          var fields := if queryType.Some? then Index(queryType.value, "fields") else None;
          if fields.None? then Raises
          else match Elements(fields.value)
            case None => Raises
            case Some(items) => Fields(items)
  }

  /** A reported entry: exactly `name`, `type` "collection" and `description`, as listed. */
  predicate EntryReports(entry: Value, t: Table) {
    entry.Obj? && entry.fields.Keys == {"name", "type", "description"}
    && Index(entry, "name") == Some(Str(t.name)) && Index(entry, "type") == Some(Str("collection"))
    && Index(entry, "description") == Some(t.description)
  }

  /** The JSON object the catalog is reported as: the entries and their count. */
  function CatalogObject(tables: seq<Table>): (v: Value)
    ensures v.Obj? && v.fields.Keys == {"tables", "total"}
    ensures v.fields["tables"].Arr? && v.fields["total"] == Num(|v.fields["tables"].items|)
    ensures |v.fields["tables"].items| == |tables|
  {
    var entries := seq(|tables|, i requires 0 <= i < |tables| => Obj(map[
      "name" := Str(tables[i].name),
      "type" := Str("collection"),
      "description" := tables[i].description
    ]));
    Obj(map["tables" := Arr(entries), "total" := Num(|entries|)])
  }

  /** Each entry of the report gives its table's name, the type "collection" and its description. */
  lemma CatalogEntries(tables: seq<Table>)
    ensures forall i :: 0 <= i < |tables| ==> EntryReports(CatalogObject(tables).fields["tables"].items[i], tables[i])
  {
  }

  /**
   The `i`-th entry `list_tables` reports for a field list comes from the `i`-th kept field:
   its name without the suffix, its description, or "" when the field has none.
   */
  lemma ReportedEntryOfField(fields: seq<Value>, i: nat)
    requires i < |Seqs.Filter(IsListedField, fields)|
    ensures var kept := Seqs.Filter(IsListedField, fields);
      var field := kept[i];
      var entry := CatalogObject(TablesFrom(kept)).fields["tables"].items[i];
      IsListedField(field)
      && Index(entry, "name") == Some(Str(Naming.TableName(FieldName(field).value)))
      && Index(entry, "type") == Some(Str("collection"))
      && Index(entry, "description")
         == Some(if "description" in field.fields then field.fields["description"] else Str(""))
  {
    var kept := Seqs.Filter(IsListedField, fields);
    var tables := TablesFrom(kept);
    CatalogEntries(tables);
    assert tables[i] == TableOf(kept[i]);
    Naming.TableNameOfRootField(tables[i].name);
  }

  /**
   What `list_tables` as written makes of the outcome of its query: when the reply has no
   `data` or no `__schema`, it returns the decoded reply itself, a dict, where every other
   path returns JSON text.
   */
  function ReplyAsWritten(reply: Result<Value, Client.QueryError>): (r: ToolReturn)
    ensures r.Unserialized? <==> reply.Ok? && LookupSchema(reply.value) == NoSchema
    ensures r.Unserialized? ==> r.value == reply.value
    ensures reply.Err? ==> r == Text(ErrorObject(Client.Message(reply.error)))
    ensures r.Text? ==> r.value.Obj? && (r.value.fields.Keys == {"error"} || r.value.fields.Keys == {"tables", "total"})
  {
    match reply
    case Err(e) => Text(ErrorObject(Client.Message(e)))
    case Ok(result) =>
      match LookupSchema(result)
      case NoSchema => Unserialized(result)
      case Raises => Text(ErrorObject(Client.MalformedText))
      case Fields(fields) =>
        match TablesOf(fields)
        case None => Text(ErrorObject(Client.MalformedText))
        case Some(tables) => Text(CatalogObject(tables))
  }

  /** A reply with a field list whose entries all have string names is reported as its catalog. */
  lemma CatalogOfFields(result: Value, fields: seq<Value>)
    requires LookupSchema(result) == Fields(fields)
    requires forall k :: 0 <= k < |fields| ==> FieldName(fields[k]).Some?
    ensures ReplyAsWritten(Ok(result)) == Text(CatalogObject(TablesFrom(Seqs.Filter(IsListedField, fields))))
  {
    var tables := TablesFrom(Seqs.Filter(IsListedField, fields));
    assert TablesOf(fields) == Some(tables);
    ReplyOfCatalog(result, fields, tables);
  }

  /** A reply whose field list the loop turns into `tables` is reported as their catalog. */
  lemma ReplyOfCatalog(result: Value, fields: seq<Value>, tables: seq<Table>)
    requires LookupSchema(result) == Fields(fields) && TablesOf(fields) == Some(tables)
    ensures ReplyAsWritten(Ok(result)) == Text(CatalogObject(tables))
  {
  }

  /** `list_tables` as written, on what the transport answers to its introspection query. */
  function ListTablesAsWritten(transport: Value -> Client.Outcome): (r: ToolReturn)
    ensures r.Unserialized? <==>
      (Client.ExecuteQuery(transport, ListTablesQuery, None, None).Ok?
       && LookupSchema(Client.ExecuteQuery(transport, ListTablesQuery, None, None).value) == NoSchema)
    ensures r.Text? ==> r.value.Obj? && (r.value.fields.Keys == {"error"} || r.value.fields.Keys == {"tables", "total"})
  {
    ReplyAsWritten(Client.ExecuteQuery(transport, ListTablesQuery, None, None))
  }

  /** A server that answers with `{"data": {}}`, as one without introspection might. */
  function EmptyDataServer(request: Value): Client.Outcome {
    Client.Replied(200, "{\"data\": {}}", Client.Decoded(Obj(map["data" := Obj(map[])])))
  }

  /** Against that server, `list_tables` as written hands back a dict rather than JSON text. */
  lemma ListTablesAsWrittenLeaksDict()
    ensures ListTablesAsWritten(EmptyDataServer) == Unserialized(Obj(map["data" := Obj(map[])]))
  {
    var reply := Obj(map["data" := Obj(map[])]);
    assert Client.ExecuteQuery(EmptyDataServer, ListTablesQuery, None, None) == Ok(reply);
  }

  /**
   `list_tables` with the fall-through serialized like every other path: it always
   returns JSON text, carrying the catalog, the reply unchanged, or an error object.
   */
  function ListTables(transport: Value -> Client.Outcome): (r: ToolReturn)
    ensures r.Text?
    ensures Client.ExecuteQuery(transport, ListTablesQuery, None, None).Err? ==>
      r.value == ErrorObject(Client.Message(Client.ExecuteQuery(transport, ListTablesQuery, None, None).error))
    ensures r.value == ListTablesAsWritten(transport).value
  {
    match ListTablesAsWritten(transport)
    case Text(v) => Text(v)
    case Unserialized(v) => Text(v)
  }

  /**
   When the reply carries a field list whose entries all have string names, `list_tables`
   reports exactly the listed collections and their count.
   */
  lemma ListTablesReportsCatalog(transport: Value -> Client.Outcome, result: Value, fields: seq<Value>)
    requires Client.ExecuteQuery(transport, ListTablesQuery, None, None) == Ok(result)
    requires LookupSchema(result) == Fields(fields)
    requires forall k :: 0 <= k < |fields| ==> FieldName(fields[k]).Some?
    ensures ListTables(transport) == Text(CatalogObject(TablesFrom(Seqs.Filter(IsListedField, fields))))
  {
    CatalogOfFields(result, fields);
  }
}
