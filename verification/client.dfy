/**
 The transport client `GraphQLClient.execute_query` and the generic tool
 `graphql_query` (pg_graphql_mcp.py). The HTTP POST itself is a parameter:
 a transport maps the JSON request body to what `urlopen` produced.
 */
module Client {
  import opened Wrappers
  import opened Json
  import Strings

  /** What `json.loads` made of a reply body; the decoder itself is not modelled. */
  datatype Decoding = Decoded(value: Value) | Undecodable(reason: string)

  /**
   The outcome of one POST as `urlopen` reports it: it raised `URLError`
   (`reason` is its text), or it returned a response with a status, the raw body
   text and what decoding that body gives.
   */
  datatype Outcome =
    | Unreachable(reason: string)
    | Replied(status: int, body: string, decoding: Decoding)

  /** The request the client serializes: `{query, variables, operationName}`. */
  datatype Request = Request(query: string, variables: Value, operationName: Option<string>)

  /** The ways `execute_query` can fail, each raised as an exception with its own message. */
  datatype QueryError =
    | NetworkError(reason: string)
    | HttpError(status: int, body: string)
    | ParseError(reason: string)
    | GraphQLError(messages: seq<string>)
    | Malformed  // Python itself raised on a response of an unexpected shape

  /** The failure classes a caller can tell apart from the message alone. */
  datatype ErrorKind = NetworkKind | HttpKind | ParseKind | GraphQLKind | OtherKind

  const NetworkPrefix: string := "Network request error: "
  const HttpPrefix: string := "HTTP Error: "
  const ParsePrefix: string := "JSON parsing error: "
  const GraphQLPrefix: string := "GraphQL Error: "
  const MessageSeparator: string := "; "
  const UnknownError: string := "Unknown Error"
  /** Stands for the text of Python's own TypeError or AttributeError, which is not modelled. */
  const MalformedText: string := "malformed response"
  const VariablesFormatError: string := "Variables JSON format error"

  function Kind(e: QueryError): ErrorKind {
    match e
    case NetworkError(_) => NetworkKind
    case HttpError(_, _) => HttpKind
    case ParseError(_) => ParseKind
    case GraphQLError(_) => GraphQLKind
    case Malformed => OtherKind
  }

  /** The text of the exception `execute_query` raises, `str(e)`. */
  function Message(e: QueryError): string {
    match e
    case NetworkError(reason) => NetworkPrefix + reason
    case HttpError(status, body) => HttpPrefix + Strings.IntToString(status) + " - " + body
    case ParseError(reason) => ParsePrefix + reason
    case GraphQLError(messages) => GraphQLPrefix + Strings.Join(messages, MessageSeparator)
    case Malformed => MalformedText
  }

  /** How a caller reads the failure class back off a message: by its prefix. */
  function KindOfMessage(message: string): ErrorKind {
    if Strings.StartsWith(message, NetworkPrefix) then NetworkKind
    else if Strings.StartsWith(message, HttpPrefix) then HttpKind
    else if Strings.StartsWith(message, ParsePrefix) then ParseKind
    else if Strings.StartsWith(message, GraphQLPrefix) then GraphQLKind
    else OtherKind
  }

  /** The four prefixes keep the failure classes apart: the message determines the class. */
  lemma KindOfMessageOfError(e: QueryError)
    ensures KindOfMessage(Message(e)) == Kind(e)
  {
    var m := Message(e);
    match e
    case NetworkError(reason) =>
      assert m[..|NetworkPrefix|] == NetworkPrefix;
    case HttpError(status, body) =>
      assert m[0] == 'H' && m[..|HttpPrefix|] == HttpPrefix;
    case ParseError(reason) =>
      assert m[0] == 'J' && m[..|ParsePrefix|] == ParsePrefix;
    case GraphQLError(messages) =>
      assert m[0] == 'G' && m[..|GraphQLPrefix|] == GraphQLPrefix;
    case Malformed =>
      assert m[0] == 'm';
  }

  /** A GraphQL failure's message lists each error message after the prefix, in order. */
  lemma GraphQLMessageLists(messages: seq<string>)
    requires |messages| >= 1
    requires forall k :: 0 <= k < |messages| ==> Strings.Avoids(messages[k], ';')
    ensures var m := Message(GraphQLError(messages));
      Strings.StartsWith(m, GraphQLPrefix)
      && Strings.Split(m[|GraphQLPrefix|..], MessageSeparator) == messages
  {
    var m := Message(GraphQLError(messages));
    assert m[|GraphQLPrefix|..] == Strings.Join(messages, MessageSeparator);
    Strings.SplitJoin(messages, MessageSeparator);
  }

  /** The request `execute_query` builds: `variables or {}`, the rest verbatim. */
  function RequestOf(query: string, variables: Option<Value>, operationName: Option<string>): (r: Request)
    ensures r.query == query && r.operationName == operationName
    ensures variables.Some? && Truthy(variables.value) ==> r.variables == variables.value
    ensures !(variables.Some? && Truthy(variables.value)) ==> r.variables == Obj(map[])
    ensures Truthy(r.variables) || r.variables == Obj(map[])
  {
    var sent := if variables.Some? && Truthy(variables.value) then variables.value else Obj(map[]);
    Request(query, sent, operationName)
  }

  /** The JSON body of a request; an absent operation name is sent as `null`. */
  function Encode(r: Request): Value {
    Obj(map[
      "query" := Str(r.query),
      "variables" := r.variables,
      "operationName" := match r.operationName case None => Null case Some(n) => Str(n)
    ])
  }

  /** How a receiver reads a request back from its JSON body. */
  function Decode(v: Value): Option<Request> {
    if v.Obj? && v.fields.Keys == {"query", "variables", "operationName"}
       && v.fields["query"].Str? && (v.fields["operationName"].Null? || v.fields["operationName"].Str?)
    then
      var name := if v.fields["operationName"].Str? then Some(v.fields["operationName"].s) else None;
      Some(Request(v.fields["query"].s, v.fields["variables"], name))
    else None
  }

  /** The body carries exactly the request: query verbatim, variables, operation name or null. */
  lemma DecodeEncode(r: Request)
    ensures Decode(Encode(r)) == Some(r)
  {
    var v := Encode(r);
    assert v.fields.Keys == {"query", "variables", "operationName"};
  }

  /** The message of one entry of `errors`: `err.get("message", "Unknown Error")`, which must be a string. */
  function EntryMessage(entry: Value): Option<string> {
    match Get(entry, "message", Str(UnknownError))
    case Some(Str(m)) => Some(m)
    case _ => None
  }

  /** The list comprehension over `result["errors"]`: it raises as soon as one entry is unusable. */
  function EntryMessages(entries: seq<Value>): (r: Option<seq<string>>)
    ensures r.Some? <==> forall k :: 0 <= k < |entries| ==> EntryMessage(entries[k]).Some?
    ensures r.Some? ==> (|r.value| == |entries|
      && forall k :: 0 <= k < |entries| ==> r.value[k] == EntryMessage(entries[k]).value)
    decreases |entries|
  {
    if entries == [] then Some([])
    else match (EntryMessage(entries[0]), EntryMessages(entries[1..]))
      case (Some(m), Some(ms)) => Some([m] + ms)
      case _ => None
  }

  /** An entry that is an object reports its `message`, or "Unknown Error" when it has none. */
  lemma EntryMessageDefault(entry: Value)
    requires entry.Obj? && "message" !in entry.fields
    ensures EntryMessage(entry) == Some(UnknownError)
  {
  }

  /**
   The outcome classification of `execute_query`: a network failure, a status other than
   200, an undecodable body, an `errors` key (with or without `data`), or success with the
   decoded value returned whole.
   */
  function Classify(o: Outcome): (r: Result<Value, QueryError>)
    ensures o.Unreachable? ==> r == Err(NetworkError(o.reason))
    ensures o.Replied? && o.status != 200 ==> r == Err(HttpError(o.status, o.body))
    ensures o.Replied? && o.status == 200 && o.decoding.Undecodable? ==> r == Err(ParseError(o.decoding.reason))
    ensures r.Ok? ==> o.Replied? && o.status == 200 && o.decoding == Decoded(r.value)
    ensures o.Replied? && o.status == 200 && o.decoding.Decoded? && o.decoding.value.Obj? ==>
      (r.Ok? <==> "errors" !in o.decoding.value.fields)
    ensures (o.Replied? && o.status == 200 && o.decoding.Decoded? && o.decoding.value.Obj? &&
      "errors" in o.decoding.value.fields && o.decoding.value.fields["errors"].Arr?) ==>
      var entries := o.decoding.value.fields["errors"].items;
      match EntryMessages(entries)
      case Some(ms) => r == Err(GraphQLError(ms))
      case None => r == Err(Malformed)
  {
    match o
    case Unreachable(reason) => Err(NetworkError(reason))
    case Replied(status, body, decoding) =>
      if status != 200 then Err(HttpError(status, body))
      else match decoding
        case Undecodable(reason) => Err(ParseError(reason))
        case Decoded(v) =>
          match Member("errors", v)
          case None => Err(Malformed)
          case Some(false) => Ok(v)
          case Some(true) =>
            match Index(v, "errors")
            case None => Err(Malformed)
            case Some(errors) =>
              match Elements(errors)
              case None => Err(Malformed)
              case Some(entries) =>
                match EntryMessages(entries)
                case None => Err(Malformed)
                case Some(ms) => Err(GraphQLError(ms))
  }

  /** `execute_query`: build the request, hand its body to the transport, classify the outcome. */
  function ExecuteQuery(transport: Value -> Outcome, query: string, variables: Option<Value>,
                        operationName: Option<string>): Result<Value, QueryError>
  {
    Classify(transport(Encode(RequestOf(query, variables, operationName))))
  }

  /** What a tool returns (as the value its JSON text denotes): the result, or `{"error": str(e)}`. */
  function ToolOutput(r: Result<Value, QueryError>): Value {
    match r
    case Ok(v) => v
    case Err(e) => ErrorObject(Message(e))
  }

  /**
   `graphql_query`: a missing or blank variables string sends no variables, text that
   does not decode is refused before anything is sent, and any failure of the query
   becomes an error object, so the tool never raises.
   */
  function GraphQLQuery(transport: Value -> Outcome, parse: string -> Decoding, query: string,
                        variables: Option<string>, operationName: Option<string>): (r: Value)
    ensures (variables.None? || Strings.AllSpace(variables.value)) ==>
      r == ToolOutput(ExecuteQuery(transport, query, None, operationName))
    ensures variables.Some? && !Strings.AllSpace(variables.value) && parse(variables.value).Undecodable? ==>
      r == ErrorObject(VariablesFormatError)
    ensures variables.Some? && !Strings.AllSpace(variables.value) && parse(variables.value).Decoded? ==>
      r == ToolOutput(ExecuteQuery(transport, query, Some(parse(variables.value).value), operationName))
  {
    if variables.None? then ToolOutput(ExecuteQuery(transport, query, None, operationName))
    else
      Strings.StripEmptyIffBlank(variables.value);
      if Strings.Strip(variables.value) == "" then
        ToolOutput(ExecuteQuery(transport, query, None, operationName))
      else match parse(variables.value)
        case Undecodable(_) => ErrorObject(VariablesFormatError)
        case Decoded(v) => ToolOutput(ExecuteQuery(transport, query, Some(v), operationName))
  }

  /** Variables text that does not decode is refused without consulting the transport at all. */
  lemma GraphQLQueryRefusesBeforeSending(t1: Value -> Outcome, t2: Value -> Outcome, parse: string -> Decoding,
                                          query: string, variables: string, operationName: Option<string>)
    requires !Strings.AllSpace(variables) && parse(variables).Undecodable?
    ensures GraphQLQuery(t1, parse, query, Some(variables), operationName)
         == GraphQLQuery(t2, parse, query, Some(variables), operationName)
  {
  }

  /** A blank variables string sends the empty variables object. */
  lemma BlankVariablesSendEmptyObject(query: string, operationName: Option<string>)
    ensures Encode(RequestOf(query, None, operationName)).fields["variables"] == Obj(map[])
  {
  }

  /** Falsy variables, such as `0`, `[]` or `""` parsed from the tool's text, are sent as `{}` too. */
  lemma FalsyVariablesSendEmptyObject(query: string, variables: Value, operationName: Option<string>)
    requires !Truthy(variables)
    ensures Encode(RequestOf(query, Some(variables), operationName)).fields["variables"] == Obj(map[])
  {
  }
}
