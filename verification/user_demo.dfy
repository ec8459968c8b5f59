/**
 The user demo (examples/user_demo.py): discovering the collections the server
 offers, choosing which table demos to run from them, and the hand-built
 collection query of `build_collection_query`.
 */
module UserDemo {
  import opened Wrappers
  import opened Json
  import Strings
  import Seqs
  import Naming
  import Client
  import Catalog

  /** The introspection query `demo_available_tables` sends. */
  const DiscoveryQuery: string :=
    "\n    {\n      __schema {\n        queryType {\n          fields {\n            name\n"
    + "            type {\n              name\n              kind\n              ofType {\n"
    + "                name\n                kind\n              }\n            }\n"
    + "          }\n        }\n      }\n    }\n    "

  /** The text a type name is searched for. */
  const ConnectionMarker: string := "Connection"

  /** The field's type has a truthy `name` that `"Connection" in` accepts. */
  predicate ConnectionTyped(fieldType: Value) {
    fieldType.Obj? && "name" in fieldType.fields && Truthy(fieldType.fields["name"])
    && Member(ConnectionMarker, fieldType.fields["name"]) == Some(true)
  }

  /**
   The loop body on one field entry: `Some(true)` when the field is collected,
   `Some(false)` when it is passed over, `None` when Python raises.
   */
  function Verdict(field: Value): (r: Option<bool>)
    ensures r.Some? ==> Catalog.FieldName(field).Some? && Index(field, "type").Some?
    ensures (Catalog.FieldName(field).Some? && Index(field, "type").Some?
      && Strings.EndsWith(Catalog.FieldName(field).value, Naming.Suffix)) ==> r == Some(true)
    ensures r == Some(true) <==> (Catalog.FieldName(field).Some? && Index(field, "type").Some?
      && (Strings.EndsWith(Catalog.FieldName(field).value, Naming.Suffix) || ConnectionTyped(Index(field, "type").value)))
  {
    var name := Catalog.FieldName(field);
    var fieldType := Index(field, "type");
    if name.None? || fieldType.None? then None
    else if Strings.EndsWith(name.value, Naming.Suffix) then Some(true)
    else
      match Get(fieldType.value, "name", Null)
      case None => None
      case Some(typeName) =>
        if !Truthy(typeName) then Some(false) else Member(ConnectionMarker, typeName)
  }

  /** A field entry the discovery loop collects. */
  predicate IsCollected(field: Value) {
    Verdict(field) == Some(true)
  }

  /** The name a collected field is listed under. */
  function CollectedName(field: Value): (n: string)
    requires IsCollected(field)
    ensures Catalog.FieldName(field) == Some(n)
  {
    Catalog.FieldName(field).value
  }

  /** The names of collected fields, unchanged and in order. */
  function NamesOf(fields: seq<Value>): (names: seq<string>)
    requires forall k :: 0 <= k < |fields| ==> IsCollected(fields[k])
    ensures |names| == |fields|
    ensures forall k :: 0 <= k < |fields| ==> Catalog.FieldName(fields[k]) == Some(names[k])
  {
    seq(|fields|, k requires 0 <= k < |fields| => CollectedName(fields[k]))
  }

  /**
   The discovery loop over the field list: it raises on the first entry Python rejects,
   and otherwise collects the names of the kept entries in server order.
   */
  function Collected(fields: seq<Value>): (r: Option<seq<string>>)
    ensures r.Some? <==> forall k :: 0 <= k < |fields| ==> Verdict(fields[k]).Some?
    ensures r.Some? ==> r.value == NamesOf(Seqs.Filter(IsCollected, fields))
    decreases |fields|
  {
    if fields == [] then Some([])
    else
      var verdict := Verdict(fields[0]);
      var rest := Collected(fields[1..]);
      assert forall k :: 1 <= k < |fields| ==> fields[k] == fields[1..][k - 1];
      if verdict.None? || rest.None? then None
      else if verdict.value then
        NamesOfCons(fields[0], Seqs.Filter(IsCollected, fields[1..]));
        Some([CollectedName(fields[0])] + rest.value)
      else rest
  }

  lemma NamesOfCons(field: Value, fields: seq<Value>)
    requires IsCollected(field)
    requires forall k :: 0 <= k < |fields| ==> IsCollected(fields[k])
    ensures NamesOf([field] + fields) == [CollectedName(field)] + NamesOf(fields)
  {
  }

  /** Entry `k` of the field list was collected under the name `n`. */
  predicate CollectedAt(fields: seq<Value>, k: int, n: string) {
    0 <= k < |fields| && IsCollected(fields[k]) && Catalog.FieldName(fields[k]) == Some(n)
  }

  /** The entry of the field list a discovered name was collected from. */
  lemma CollectedSource(fields: seq<Value>, names: seq<string>, i: nat) returns (k: nat)
    requires Collected(fields) == Some(names) && i < |names|
    ensures CollectedAt(fields, k, names[i])
  {
    var kept := Seqs.Filter(IsCollected, fields);
    assert kept[i] in fields;
    k :| 0 <= k < |fields| && fields[k] == kept[i];
  }

  /** The position in the discovered list of a collected entry's name. */
  lemma CollectedPosition(fields: seq<Value>, names: seq<string>, k: nat) returns (i: nat)
    requires Collected(fields) == Some(names) && k < |fields| && IsCollected(fields[k])
    ensures i < |names| && Catalog.FieldName(fields[k]) == Some(names[i])
  {
    var kept := Seqs.Filter(IsCollected, fields);
    assert fields[k] in kept;
    i :| 0 <= i < |kept| && kept[i] == fields[k];
  }

  /**
   Every collection the catalog of `list_tables` lists is discovered too, and a discovered
   name the catalog's rule accepts is in the catalog; the discovery loop also keeps
   Connection-typed and reserved names, which the catalog drops.
   */
  lemma CatalogWithinDiscovery(fields: seq<Value>, tables: seq<Catalog.Table>, names: seq<string>)
    requires Catalog.TablesOf(fields) == Some(tables)
    requires Collected(fields) == Some(names)
    ensures forall i :: 0 <= i < |tables| ==> Naming.RootField(tables[i].name) in names
    ensures forall j :: 0 <= j < |names| && Catalog.Listed(names[j]) ==>
      exists i :: 0 <= i < |tables| && Naming.RootField(tables[i].name) == names[j]
  {
    forall i | 0 <= i < |tables|
      ensures Naming.RootField(tables[i].name) in names
    {
      var k := Catalog.EntrySource(fields, tables, i);
      assert Verdict(fields[k]).Some?;
      var j := CollectedPosition(fields, names, k);
      assert names[j] == Naming.RootField(tables[i].name);
    }
    forall j | 0 <= j < |names| && Catalog.Listed(names[j])
      ensures exists i :: 0 <= i < |tables| && Naming.RootField(tables[i].name) == names[j]
    {
      var k := CollectedSource(fields, names, j);
      assert Catalog.IsListedField(fields[k]);
      Catalog.CatalogMatchesFields(fields, tables);
    }
  }

  /** What `demo_available_tables` returns: a list of names, or nothing at all (Python's None). */
  datatype Discovery = Found(names: seq<string>) | NothingReturned

  /**
   `demo_available_tables` as written: every failure is caught and gives the empty list,
   but a reply without `data` or without `__schema` falls off the end of the function.
   */
  function DiscoverAsWritten(transport: Value -> Client.Outcome): (r: Discovery)
    ensures r.NothingReturned? <==>
      (Client.ExecuteQuery(transport, DiscoveryQuery, None, None).Ok?
       && Catalog.LookupSchema(Client.ExecuteQuery(transport, DiscoveryQuery, None, None).value) == Catalog.NoSchema)
    ensures Client.ExecuteQuery(transport, DiscoveryQuery, None, None).Err? ==> r == Found([])
    ensures (Client.ExecuteQuery(transport, DiscoveryQuery, None, None).Ok?
       && Catalog.LookupSchema(Client.ExecuteQuery(transport, DiscoveryQuery, None, None).value).Fields?) ==>
      var fields := Catalog.LookupSchema(Client.ExecuteQuery(transport, DiscoveryQuery, None, None).value).fields;
      r == Found(if Collected(fields).Some? then Collected(fields).value else [])
  {
    match Client.ExecuteQuery(transport, DiscoveryQuery, None, None)
    case Err(_) => Found([])
    case Ok(result) =>
      match Catalog.LookupSchema(result)
      case Raises => Found([])
      case NoSchema => NothingReturned
      case Fields(fields) =>
        match Collected(fields)
        case None => Found([])
        case Some(names) => Found(names)
  }

  /** `demo_available_tables` with the fall-through returning the empty list like the other failures. */
  function Discover(transport: Value -> Client.Outcome): (names: seq<string>)
    ensures DiscoverAsWritten(transport).Found? ==> names == DiscoverAsWritten(transport).names
    ensures DiscoverAsWritten(transport).NothingReturned? ==> names == []
  {
    match DiscoverAsWritten(transport)
    case Found(names) => names
    case NothingReturned => []
  }

  /** Which table demos the main block runs. */
  datatype Plan = Plan(account: bool, blog: bool)

  /** The two membership tests of the main block on a discovered list. */
  function PlanOf(names: seq<string>): Plan {
    Plan("accountCollection" in names, "blogCollection" in names || "blogPostCollection" in names)
  }

  /**
   The main block as written: the membership tests run on whatever discovery returned,
   and on None the first one raises TypeError, ending the program before any demo.
   */
  function PlanAsWritten(d: Discovery): (r: Option<Plan>)
    ensures r.None? <==> d.NothingReturned?
    ensures r.Some? ==> (r.value.account <==> "accountCollection" in d.names)
    ensures r.Some? ==> (r.value.blog <==> "blogCollection" in d.names || "blogPostCollection" in d.names)
  {
    match d
    case Found(names) => Some(PlanOf(names))
    case NothingReturned => None
  }

  /** Against a server whose reply has an empty `data`, the main block as written crashes. */
  lemma MainCrashesWithoutSchema()
    ensures DiscoverAsWritten(Catalog.EmptyDataServer) == NothingReturned
    ensures PlanAsWritten(DiscoverAsWritten(Catalog.EmptyDataServer)).None?
  {
    var reply := Obj(map["data" := Obj(map[])]);
    assert Client.ExecuteQuery(Catalog.EmptyDataServer, DiscoveryQuery, None, None) == Ok(reply);
  }

  /** The main block on the corrected discovery: it never crashes, and skips both demos then. */
  function MainPlan(transport: Value -> Client.Outcome): (p: Plan)
    ensures DiscoverAsWritten(transport).Found? ==> Some(p) == PlanAsWritten(DiscoverAsWritten(transport))
    ensures DiscoverAsWritten(transport).NothingReturned? ==> p == Plan(false, false)
  {
    PlanOf(Discover(transport))
  }

  /** Some entry of the field list has the string name `n`. */
  predicate HasField(fields: seq<Value>, n: string) {
    exists k :: 0 <= k < |fields| && Catalog.FieldName(fields[k]) == Some(n)
  }

  /** A name ending in the collection suffix is discovered exactly when some entry carries it. */
  lemma SuffixedNameDiscovered(fields: seq<Value>, names: seq<string>, n: string)
    requires Collected(fields) == Some(names)
    requires Strings.EndsWith(n, Naming.Suffix)
    ensures n in names <==> HasField(fields, n)
  {
    if n in names {
      var i :| 0 <= i < |names| && names[i] == n;
      var k := CollectedSource(fields, names, i);
    }
    if HasField(fields, n) {
      var k :| 0 <= k < |fields| && Catalog.FieldName(fields[k]) == Some(n);
      assert Verdict(fields[k]).Some?;
      var i := CollectedPosition(fields, names, k);
    }
  }

  /**
   When the reply carries a field list that the loop gets through, the account demo runs
   exactly when the server has an `accountCollection` field, and the blog demos exactly
   when it has a `blogCollection` or a `blogPostCollection` field.
   */
  lemma PlanFollowsFields(transport: Value -> Client.Outcome, result: Value, fields: seq<Value>)
    requires Client.ExecuteQuery(transport, DiscoveryQuery, None, None) == Ok(result)
    requires Catalog.LookupSchema(result) == Catalog.Fields(fields)
    requires forall k :: 0 <= k < |fields| ==> Verdict(fields[k]).Some?
    ensures MainPlan(transport).account <==> HasField(fields, "accountCollection")
    ensures MainPlan(transport).blog <==> HasField(fields, "blogCollection") || HasField(fields, "blogPostCollection")
  {
    var names := Collected(fields).value;
    assert Discover(transport) == names;
    SuffixedNameDiscovered(fields, names, "accountCollection");
    SuffixedNameDiscovered(fields, names, "blogCollection");
    SuffixedNameDiscovered(fields, names, "blogPostCollection");
  }

  /** The pieces of the text `build_collection_query` fills in. */
  const OperationIntro: string := "\n        query Get"
  const RootIntro: string := " {\n          "
  const FirstIntro: string := "(first: "
  const NodeIntro: string := ") {\n            edges {\n              node {\n                "
  const FieldSeparator: string := "\n        "
  const BuiltTail: string := "\n              }\n            }\n            totalCount\n          }\n        }\n        "

  /** Everything before the `first` argument. */
  function QueryLead(name: string): string {
    OperationIntro + Strings.Capitalize(name) + RootIntro + Naming.RootField(name) + FirstIntro
  }

  /** Everything before the field list. */
  function BuiltHead(name: string, first: int): string {
    QueryLead(name) + Strings.IntToString(first) + NodeIntro
  }

  /**
   `build_collection_query`: an operation named `Get` and the capitalized collection,
   the root field with `first` written inline, the fields joined one per line, and
   `totalCount`.
   */
  function BuildCollectionQuery(name: string, fields: seq<string>, first: int): string {
    BuiltHead(name, first) + Strings.Join(fields, FieldSeparator) + BuiltTail
  }

  /** Where the field list starts in the built query. */
  function FieldsOffset(name: string, first: int): nat {
    |BuiltHead(name, first)|
  }

  /**
   The field list can be read back from the built query: the text between the head and
   the tail, split at the line separator, gives the fields, provided none spans a line.
   */
  lemma BuiltQueryFields(name: string, fields: seq<string>, first: int)
    requires |fields| >= 1
    requires forall k :: 0 <= k < |fields| ==> Strings.Avoids(fields[k], '\n')
    ensures var q := BuildCollectionQuery(name, fields, first);
      FieldsOffset(name, first) <= |q| - |BuiltTail|
      && Strings.Split(q[FieldsOffset(name, first)..|q| - |BuiltTail|], FieldSeparator) == fields
  {
    var joined := Strings.Join(fields, FieldSeparator);
    Strings.MiddleOfConcat(BuiltHead(name, first), joined, BuiltTail);
    Strings.SplitJoin(fields, FieldSeparator);
  }

  /** Where the `first` argument starts in the built query. */
  function FirstOffset(name: string): nat {
    |QueryLead(name)|
  }

  /** The text at `[i..j]` of the head is the text there in the whole query. */
  lemma HeadSlice(name: string, fields: seq<string>, first: int, i: int, j: int)
    requires 0 <= i <= j <= |BuiltHead(name, first)|
    ensures j <= |BuildCollectionQuery(name, fields, first)|
    ensures BuildCollectionQuery(name, fields, first)[i..j] == BuiltHead(name, first)[i..j]
  {
    var head := BuiltHead(name, first);
    var joined := Strings.Join(fields, FieldSeparator);
    Strings.SliceOfLeft(head + joined, BuiltTail, i, j);
    Strings.SliceOfLeft(head, joined, i, j);
  }

  /** The operation name carries the capitalized collection name. */
  lemma BuiltQueryOperation(name: string, fields: seq<string>, first: int)
    ensures var q := BuildCollectionQuery(name, fields, first);
      |OperationIntro| + |name| <= |q| && q[|OperationIntro|..|OperationIntro| + |name|] == Strings.Capitalize(name)
  {
    var lead := QueryLead(name);
    var digits := Strings.IntToString(first);
    var cap := Strings.Capitalize(name);
    var lo, hi := |OperationIntro|, |OperationIntro| + |name|;
    HeadSlice(name, fields, first, lo, hi);
    Strings.SliceOfLeft(lead + digits, NodeIntro, lo, hi);
    Strings.SliceOfLeft(lead, digits, lo, hi);
    Strings.SliceOfLeft(OperationIntro + cap + RootIntro + Naming.RootField(name), FirstIntro, lo, hi);
    Strings.SliceOfLeft(OperationIntro + cap + RootIntro, Naming.RootField(name), lo, hi);
    Strings.SliceOfLeft(OperationIntro + cap, RootIntro, lo, hi);
    Strings.MiddleOfConcat(OperationIntro, cap, []);
    assert (OperationIntro + cap)[lo..hi] == cap;
  }

  /** The `first` argument is written in decimal right after the root field and reads back as the number given. */
  lemma BuiltQueryFirst(name: string, fields: seq<string>, first: nat)
    ensures var q := BuildCollectionQuery(name, fields, first);
      FirstOffset(name) + |Strings.NatToString(first)| <= |q|
      && Strings.IsDigits(q[FirstOffset(name)..FirstOffset(name) + |Strings.NatToString(first)|])
      && Strings.DigitsValue(q[FirstOffset(name)..FirstOffset(name) + |Strings.NatToString(first)|]) == first
  {
    var digits := Strings.NatToString(first);
    var lead := QueryLead(name);
    var o := FirstOffset(name);
    HeadSlice(name, fields, first, o, o + |digits|);
    Strings.SliceOfLeft(lead + digits, NodeIntro, o, o + |digits|);
    Strings.MiddleOfConcat(lead, digits, []);
    assert (lead + digits)[o..o + |digits|] == digits;
    Strings.DigitsValueOfNatToString(first);
  }

  /**
   Every built query opens with the operation `Get` and the capitalized name, then the root
   field `<name>Collection` with its `first` argument, and closes with the selection of
   `totalCount` after the edges.
   */
  lemma BuiltQueryFrame(name: string, fields: seq<string>, first: int)
    ensures Strings.StartsWith(BuildCollectionQuery(name, fields, first), QueryLead(name))
    ensures Strings.EndsWith(BuildCollectionQuery(name, fields, first), BuiltTail)
  {
    var q := BuildCollectionQuery(name, fields, first);
    var lead := QueryLead(name);
    var digits := Strings.IntToString(first);
    var joined := Strings.Join(fields, FieldSeparator);
    HeadSlice(name, fields, first, 0, |lead|);
    Strings.SliceOfLeft(lead + digits, NodeIntro, 0, |lead|);
    Strings.SliceOfLeft(lead, digits, 0, |lead|);
    assert q == (BuiltHead(name, first) + joined) + BuiltTail;
    assert q[|q| - |BuiltTail|..] == BuiltTail;
  }

  /** The query the demo builds for news: operation `GetNews`, root field `newsCollection`, three records. */
  lemma NewsQueryShape()
    ensures Strings.StartsWith(BuildCollectionQuery("news", ["id", "title", "source", "time"], 3),
      OperationIntro + "News" + RootIntro + "newsCollection" + FirstIntro + "3")
  {
    var fields := ["id", "title", "source", "time"];
    var lead := QueryLead("news");
    assert Strings.Capitalize("news") == "News";
    assert Strings.IntToString(3) == "3";
    assert Naming.RootField("news") == "newsCollection";
    assert lead == OperationIntro + "News" + RootIntro + "newsCollection" + FirstIntro;
    HeadSlice("news", fields, 3, 0, |lead| + 1);
    Strings.SliceOfLeft(lead + "3", NodeIntro, 0, |lead| + 1);
  }
}
