# pg-graphql-mcp in Dafny

pg-graphql-mcp is a small GraphQL client for PostgreSQL databases served through
pg_graphql. It also exposes MCP tools over that client. `GraphQLClient.execute_query` POSTs
`{query, variables, operationName}` to the endpoint. It turns each failure into an
exception with a distinguishing message: network, HTTP status, JSON parsing, or GraphQL
`errors`. The tools `graphql_query`, `list_tables` and `execute_collection_query` wrap the
client and return JSON text, with an `{"error": ...}` object in place of any exception. The
example scripts drive the tools:

- a cursor pagination loop over `newsCollection`;
- a discovery of the collections the server offers, which chooses the table demos to run;
- a hand-built collection query;
- a client-side keyword search over news titles;
- an interactive menu that reads choices from standard input.

The project models these parts as pure functions over a JSON value type (`Json.Value`):

- `wrappers.dfy`, `json.dfy`: `Option`/`Result`, and Python's dict and list accessors. Each
  accessor returns `None` where Python would raise.
- `strings.dfy`, `seqs.dfy`, `naming.dfy`: string helpers and sequence helpers (ASCII case
  mapping, `strip`, `isdigit`, decimal text, `join`/`split`, filter), plus the
  `<table>Collection` naming rule.
- `client.dfy`: the request body, the outcome classification of `execute_query`, the
  error messages, and `graphql_query`. The HTTP round trip is a parameter:
  `transport: Value -> Outcome` maps the request body to what `urlopen` gave.
- `catalog.dfy`: `list_tables`.
- `collections.dfy`: `execute_collection_query`.
- `pagination.dfy`: `demo_pagination`. Its input is the sequence of decoded tool replies.
- `user_demo.dfy`: `demo_available_tables`, the main block's dispatch, and
  `build_collection_query`.
- `news_demo.dfy`: the keyword filter, the show limits, the count query, and the
  interactive menu over a sequence of input events (a line, end of input, or Ctrl-C).

The model follows the code where the code and its documentation disagree. Where they differ:

- urllib raises `HTTPError`, a subclass of `URLError`, for a non-2xx status before the
  client's own status check runs. Such a status therefore surfaces as a "Network request
  error" in practice. The model gives the transport's outcome directly, so it covers both
  a `Replied` status other than 200 (the client's own branch) and `Unreachable`.
- The pagination demo does not number its saved pages 1..n consecutively. A reply with
  neither `error` nor `data` uses up a page number and a call, and saves nothing.
  `Pagination.ConsecutiveWithoutSkips` states the consecutive numbering only when no reply
  was skipped.
- A page whose `pageInfo` is not a dict is appended first. Then `page_info.get` raises and
  the loop stops. That page stays saved.
- No identifier validation of collection names takes place: the name is interpolated into
  the query text verbatim.
- Python's own exception texts (KeyError, TypeError, and so on) are all represented by the
  single text `Client.MalformedText`.

## Model

| member | source | states |
|---|---|---|
| Client.RequestOf | pg_graphql_mcp.py:44-48 | the request keeps the query and operation name verbatim; truthy variables are sent as given, anything else as `{}` |
| Client.DecodeEncode | pg_graphql_mcp.py:44-54 | the JSON body carries exactly the request: decoding it gives back query, variables and operation name (null when absent) |
| Client.BlankVariablesSendEmptyObject | pg_graphql_mcp.py:46 | with no variables the body's `variables` is the empty object |
| Client.FalsyVariablesSendEmptyObject | pg_graphql_mcp.py:46 | falsy variables (`0`, `[]`, `{}`, `""`, `false`, `null`) are sent as the empty object, as `variables or {}` does |
| Client.EntryMessages | pg_graphql_mcp.py:71-76 | the message list exists iff every `errors` entry yields a string message, and then it lists them in order |
| Client.EntryMessageDefault | pg_graphql_mcp.py:73 | an error entry without `message` contributes "Unknown Error" |
| Client.Classify | pg_graphql_mcp.py:60-84 | a network failure, a status other than 200, an undecodable body and an `errors` key each give their own error; success happens only on status 200 with the decoded value returned whole |
| Client.KindOfMessageOfError | pg_graphql_mcp.py:63-84 | the four message prefixes keep the failure classes apart: the class can be read back from the message |
| Client.GraphQLMessageLists | pg_graphql_mcp.py:71-77 | a GraphQL failure message is the prefix followed by the entry messages joined by "; ", and splitting at "; " recovers them |
| Client.GraphQLQuery | pg_graphql_mcp.py:104-126 | a missing or blank variables string sends no variables; undecodable variables give the format error object; otherwise the parsed variables are sent and any failure becomes an error object |
| Client.GraphQLQueryRefusesBeforeSending | pg_graphql_mcp.py:107-115 | undecodable variables are refused whatever the transport would have answered |
| Naming.RootField | pg_graphql_mcp.py:212-213 | a table's root field ends in the collection suffix and is ten characters longer |
| Naming.TableName | pg_graphql_mcp.py:212-213 | stripping the last ten characters of a suffixed field gives the table whose root field it is |
| Naming.TableNameOfRootField | pg_graphql_mcp.py:212-213 | appending the suffix and stripping it again gives the table name back |
| Catalog.TableOf | pg_graphql_mcp.py:209-220 | an entry's name, with the suffix restored, is the field's name; its description is the field's `description` as given, null included, and "" only when the key is absent |
| Catalog.TablesOf | pg_graphql_mcp.py:207-220 | the loop raises iff some field lacks a string name; otherwise it lists exactly the non-reserved suffixed fields, in server order |
| Catalog.CatalogMatchesFields | pg_graphql_mcp.py:207-220 | every entry names a non-reserved suffixed root field present in the reply, every such field has an entry, and the counts agree |
| Catalog.EntrySource | pg_graphql_mcp.py:207-220 | each catalog entry comes from a position in the field list whose name is its root field |
| Catalog.CatalogObject | pg_graphql_mcp.py:222-224 | the report has exactly the keys `tables` and `total`, the entry list has one entry per table, and `total` is its length |
| Catalog.CatalogEntries | pg_graphql_mcp.py:214-220 | each reported entry has exactly the keys `name`, `type` and `description`: its table's name, "collection", and its description |
| Catalog.ReportedEntryOfField | pg_graphql_mcp.py:207-224 | the i-th reported entry comes from the i-th kept field: the field's name without the suffix, type "collection", and the field's description, or "" when it has none |
| Catalog.ListTablesAsWritten | pg_graphql_mcp.py:198-229 | the tool returns the bare dict, not JSON text, exactly when the query succeeds and the reply lacks `data` or `__schema`; any text it returns is either an error object or a report with keys `tables` and `total` |
| Catalog.CatalogOfFields | pg_graphql_mcp.py:203-224 | a reply whose fields all have names is reported as the catalog of exactly the listed fields |
| Catalog.ListTablesAsWrittenLeaksDict | pg_graphql_mcp.py:203-226 | against a server replying `{"data": {}}` the tool hands back that dict |
| Catalog.ListTables | pg_graphql_mcp.py:198-229 | the corrected tool always returns JSON text with the same content; a failed query gives the error object with its message |
| Catalog.ListTablesReportsCatalog | pg_graphql_mcp.py:200-224 | a reply with a readable field list is reported as exactly the listed collections and their count |
| Collections.OperationNameInQuery | pg_graphql_mcp.py:298-299 | the query names the operation `Get<Name>Collection` right after `query ` |
| Collections.RootFieldInQuery | pg_graphql_mcp.py:298-300 | the query selects the root field `<name>Collection`, in the name's own casing |
| Collections.QueryTextInjective | pg_graphql_mcp.py:298-315 | different collection names give different queries |
| Collections.OperationNameOfBlogPost | pg_graphql_mcp.py:299-300 | `capitalize` lower-cases the rest: `blogPost` gives operation `GetBlogpostCollection` but root field `blogPostCollection` |
| Collections.Variables | pg_graphql_mcp.py:317-319 | `first` is always bound; `after` is bound, verbatim, exactly when the cursor is truthy |
| Collections.AfterBoundIffNonEmpty | pg_graphql_mcp.py:318-319 | a string cursor is bound iff non-empty; None and "" are both left out |
| Collections.ExecuteCollectionQuery | pg_graphql_mcp.py:317-326 | the transport receives the collection query with the variables map as built and no operation name; the outcome becomes the tool's output |
| Collections.WhereAndOrderByIgnored | pg_graphql_mcp.py:276-326 | the `where` and `order_by` arguments never affect the result |
| Collections.CatalogEntrySelectsItsField | pg_graphql_mcp.py:207-220 | the root field a catalog entry's query selects is the name of some field of the reply it was listed from |
| Collections.SelectedFieldIsRoot | pg_graphql_mcp.py:300 | the text at the root offset of the query is the collection's root field |
| Pagination.StepOf | examples/pagination_demo.py:37-79 | only a dict with an `error` key reports; a string or list containing "error" raises at `result['error']`; a reply with neither `error` nor `data` is skipped; a page is saved exactly when the reply holds readable `data.newsCollection` `edges` and `pageInfo`, and it holds those two values; a saved page continues iff `hasNextPage` and `endCursor` are truthy, and then with that `endCursor` |
| Pagination.ErrorTextRaises | examples/pagination_demo.py:40-41 | the string `"error"` and the list `["error"]` make the body raise rather than report |
| Pagination.Walk | examples/pagination_demo.py:26-79 | at most one call per page number, and at least one when the budget allows; the first call uses the starting cursor |
| Pagination.WalkContinues | examples/pagination_demo.py:57-75 | a continuing step contributes its call, and its page unless skipped, and the rest of the run follows |
| Pagination.WalkEnds | examples/pagination_demo.py:40-42 | a stopping step makes one last call and saves its page only if it saved one |
| Pagination.WalkCalls | examples/pagination_demo.py:66-74 | every call but the last follows a step that went on, and uses the cursor that step advanced to |
| Pagination.WalkStop | examples/pagination_demo.py:26-79 | the run ends on the budget iff every call went on; otherwise its last call's step did not go on and gives the stop |
| Pagination.WalkPageCount | examples/pagination_demo.py:57-63 | no more pages are saved than calls are made |
| Pagination.WalkPageAt | examples/pagination_demo.py:57-63 | each saved page is numbered by the call whose reply it holds |
| Pagination.WalkPages | examples/pagination_demo.py:57-63 | all saved pages hold the reply of the call their number names |
| Pagination.WalkPagesIncreasing | examples/pagination_demo.py:26-63 | the saved pages' numbers strictly increase |
| Pagination.WalkSavesEveryPage | examples/pagination_demo.py:57-63 | every call whose reply was saved left a page with its number |
| Pagination.ConsecutiveWithoutSkips | examples/pagination_demo.py:26-71 | when no reply was skipped the pages are numbered consecutively |
| Pagination.DemoPagination | examples/pagination_demo.py:21-35 | between one and three calls, the first without a cursor |
| Pagination.FirstCallHasNoAfter | examples/pagination_demo.py:22-35 | the first call binds `first = 3` and no `after` |
| Pagination.NextCallResumesAfterEndCursor | examples/pagination_demo.py:66-74 | a call after a saved page passes that page's `endCursor` as `after`, with `first = 3` |
| Pagination.SkippedReplyKeepsCursor | examples/pagination_demo.py:40-45 | after a reply with neither `error` nor `data` the next call reuses the cursor |
| Pagination.StopsAtLastPage | examples/pagination_demo.py:66-71 | a saved page without a next page or a truthy `endCursor` is the last call |
| Pagination.LastCallAt | examples/pagination_demo.py:40-79 | a call whose step does not go on is the last one, and its step gives the stop |
| Pagination.ErrorPayloadStops | examples/pagination_demo.py:40-42 | a dict with an `error` key ends the loop at once, with the error reported, and leaves no page for that call |
| Pagination.ExceptionStops | examples/pagination_demo.py:77-79 | an exception before saving ends the loop at once and leaves no page for that call |
| Pagination.TotalRecordsBounded | examples/pagination_demo.py:82 | pages of at most `limit` records each sum to at most `limit` times their number |
| Pagination.DemoRecordsBounded | examples/pagination_demo.py:21-82 | when every page the server returns has at most three edges, the reported total is at most nine records |
| Pagination.SecondCallAfterC3 | examples/pagination_demo.py:31-74 | after a first page ending at cursor `c3` with more to come, the second call passes `after = "c3"` |
| Pagination.FirstPageSaved | examples/pagination_demo.py:40-74 | the scripted first page is saved, with its three edges, its page info and the next cursor `c3` |
| UserDemo.Verdict | examples/user_demo.py:53-61 | a field is collected iff it has a name and a type and either its name ends in `Collection` or its type has a truthy name containing `Connection` |
| UserDemo.Collected | examples/user_demo.py:52-61 | the loop raises iff some entry is rejected by Python; otherwise it lists the collected names in server order |
| UserDemo.CollectedSource | examples/user_demo.py:52-61 | every discovered name comes from a collected entry carrying it |
| UserDemo.CollectedPosition | examples/user_demo.py:52-61 | every collected entry's name is among the discovered names |
| UserDemo.CatalogWithinDiscovery | examples/user_demo.py:52-61 | every collection `list_tables` lists is discovered, and every discovered name the catalog's rule accepts is in the catalog |
| UserDemo.Discover | examples/user_demo.py:45-71 | the corrected discovery agrees with the original where it returns, and gives `[]` where the original returns nothing |
| UserDemo.MainCrashesWithoutSchema | examples/user_demo.py:48-71 | against a server replying `{"data": {}}` discovery returns nothing and the main block crashes |
| UserDemo.MainPlan | examples/user_demo.py:275-282 | on the corrected discovery the plan agrees with the original wherever the original runs, and skips both demos otherwise |
| UserDemo.SuffixedNameDiscovered | examples/user_demo.py:56-58 | a suffixed name is discovered iff some field carries it |
| UserDemo.PlanFollowsFields | examples/user_demo.py:275-282 | the account demo runs iff the server has `accountCollection`; the blog demo runs iff it has `blogCollection` or `blogPostCollection` |
| UserDemo.BuiltQueryFields | examples/user_demo.py:195-209 | the field list reads back from the built query by splitting the body at the line separator |
| UserDemo.HeadSlice | examples/user_demo.py:198-203 | the built query begins with its head |
| UserDemo.BuiltQueryFrame | examples/user_demo.py:198-209 | every built query starts with `query Get<Capitalized>`, then ` {`, then the root field `<name>Collection(first: `, so the operation name has no `Collection` suffix; and it ends with the selection of `totalCount` after the edges |
| UserDemo.BuiltQueryOperation | examples/user_demo.py:199 | the operation name carries the capitalized collection name right after `query Get` |
| UserDemo.BuiltQueryFirst | examples/user_demo.py:200 | `first` is written in decimal digits that read back as the number given |
| UserDemo.NewsQueryShape | examples/user_demo.py:214-215 | the news query starts with operation `GetNews`, root field `newsCollection` and `first: 3` |
| NewsDemo.FilterNews | examples/news_demo.py:135-139 | the filter raises iff some edge has no node or a node has no string title; otherwise it keeps exactly the nodes whose title contains the keyword, ignoring case, in order |
| NewsDemo.FilterNewsSubsequence | examples/news_demo.py:135-139 | the matches are a subsequence of the nodes, in their order |
| NewsDemo.FilterNewsOnlyMatches | examples/news_demo.py:138 | every match mentions the keyword, ignoring case |
| NewsDemo.FilterNewsAllMatches | examples/news_demo.py:135-139 | every node that mentions the keyword is among the matches |
| NewsDemo.FilterNewsCount | examples/news_demo.py:135-139 | the number of matches is the number of nodes that mention the keyword |
| NewsDemo.KeywordCaseIgnored | examples/news_demo.py:138 | the search gives the same result for a keyword and its lower-case form |
| NewsDemo.EmptyKeywordKeepsAll | examples/news_demo.py:138 | an empty keyword keeps every node |
| NewsDemo.PrintedPrefix | examples/news_demo.py:143-144 | the printed matches are a prefix of those to show, each printable, and printing stops at the first one that is not |
| NewsDemo.SearchOutcome | examples/news_demo.py:130-149 | the search fails iff there are no matches to report; "nothing found" iff the filter matched nothing; a listing reports the number of matches and shows a prefix of them, at most the limit, complete iff no line failed to print |
| NewsDemo.ListingShowsMatches | examples/news_demo.py:130-149 | a listing's count is the number of nodes mentioning the keyword, and every item shown mentions it |
| NewsDemo.ShownLimits | examples/news_demo.py:141-146 | the scripted search shows at most five matches and the interactive search at most ten |
| NewsDemo.CountQueryInlinesTyped | examples/news_demo.py:282-299 | a count typed without leading zeros is inlined in the query exactly as typed |
| NewsDemo.CountQueryReadsBack | examples/news_demo.py:284-287 | the number inlined in the count query reads back as the count |
| NewsDemo.FollowUp | examples/news_demo.py:282-315 | a follow-up prompt consumes exactly one input |
| NewsDemo.StrippedUnpadded | examples/news_demo.py:251 | no line the loop reads starts or ends with whitespace |
| NewsDemo.TurnAsWritten | examples/news_demo.py:243-363 | a turn never reports a closed input; with query outcomes left out (see "## Left out"), it fails exactly when one of its reads hits the end of the input, which that read consumes; it consumes one or two inputs |
| NewsDemo.TurnChoices | examples/news_demo.py:251-357 | a turn quits iff the choice is `4`; reports an invalid choice iff it is none of 1-4; after `2`, an all-digit line shows that count and any other line is rejected as not a valid number; after `3`, a non-empty line is searched for and an empty one skips the search |
| NewsDemo.CountTurn | examples/news_demo.py:281-284 | choice `2` followed by an all-digit line shows that many items |
| NewsDemo.RunAsWritten | examples/news_demo.py:243-363 | the loop as written never runs more turns than it is given |
| NewsDemo.RunStopsAtFirstEnd | examples/news_demo.py:243-363 | the loop as written stops at its first ending action: no earlier action ends it, and a run shorter than its budget ends on an ending action |
| NewsDemo.AsWrittenSpinsAtEnd | examples/news_demo.py:243-363 | once the input is exhausted, every turn fails and none ends the loop |
| NewsDemo.AsWrittenNeverExits | examples/news_demo.py:251-363 | on input `1` followed by end of input, the loop shows the latest news and then fails forever |
| NewsDemo.Turn | examples/news_demo.py:243-363 | the corrected turn closes the loop exactly where the original fails at the end of the input, and otherwise does the same |
| NewsDemo.Session | examples/news_demo.py:243-363 | the corrected loop always ends, and only its last action ends it |
| NewsDemo.SessionStep | examples/news_demo.py:243-363 | a turn that does not end the corrected loop is followed by the rest of the session from where it stopped reading |
| NewsDemo.RunStep | examples/news_demo.py:243-363 | a turn that does not end the original loop is followed by the remaining turns from where it stopped reading |
| NewsDemo.SessionEndsHere | examples/news_demo.py:243-363 | a turn that ends the corrected loop is its last action, and it agrees with the original's single turn |
| NewsDemo.AgreeCons | examples/news_demo.py:243-363 | the same turn in front of two agreeing runs keeps them agreeing |
| NewsDemo.SessionAgreesUntilEnd | examples/news_demo.py:243-363 | the corrected loop does what the original does turn for turn, except that it closes where the original fails at end of input |
| NewsDemo.InteractiveEnds | examples/news_demo.py:243-363 | `interactive_news_query` with the end of the input closing it always ends, and only its last action ends it |
| NewsDemo.InteractiveAgreesAsWritten | examples/news_demo.py:243-363 | on any raw input it does what the loop as written does, turn for turn, except that it closes where the original fails at the end of the input |
| NewsDemo.FourQuits | examples/news_demo.py:251-354 | choice `4`, with any surrounding blanks, ends the session at once |
| NewsDemo.CountLinesUnchanged | examples/news_demo.py:251-282 | stripping leaves the choice `2` and an all-digit count unchanged |
| NewsDemo.CountSentAsTyped | examples/news_demo.py:281-301 | after choice `2`, a count typed without leading zeros is sent inlined exactly as typed |
| NewsDemo.StartsInteractive | examples/news_demo.py:373-380 | interactive mode starts exactly on a line that strips to `y` or `Y`; Ctrl-C declines; end of input escapes as an exception |

## Left out

- HTTP, sockets, the endpoint environment variable, the 30-second timeout and UTF-8 decoding: the transport is a function parameter and its outcome is given.
- JSON text: `json.loads` and `json.dumps` are not modelled. Tools return the JSON value their text denotes, and the variables parser of `graphql_query` is a parameter.
- Floating-point JSON numbers: `Json.Value` numbers are integers.
- FastMCP registration and the MCP transport: these are foreign code.
- `introspection_query` and `get_table_info`: each only forwards a fixed query, so it is the `Client.ExecuteQuery` path with a constant text.
- Printing, emoji, and the `sorted(...)` order of the discovery listing: output only.
- The table demos `demo_account_queries` and `demo_blog_queries`, and the other scripted news demos: they print query results; only their selection by the main block is modelled.
- End of input: each read that hits an end of input consumes it, at the menu prompt and at a follow-up prompt alike. Past the end of the sequence every read hits the end again, as on a closed pipe. An end of input inside the sequence stands for a terminal's Ctrl-D, after which reading goes on. Which of the two the standard input does is left to the caller's choice of input.
- NewsDemo.TurnAsWritten: the query each of choices 1, 2 and 3 sends is not modelled, and neither is its outcome or the display of its results. In Python, `client.execute_query` and `result["data"]["newsCollection"]["edges"]` raise on a network, HTTP or GraphQL error or a missing key (news_demo.py:271-272, 301-302, 333-334), and so can the printing. Such a turn is `Operation failed` in Python, but the model reports the query's action (`ShowLatest`, `ShowCount` or `Search`). So "fails exactly when a read hits the end of the input" holds only under this abstraction.
- Strings.Lower, Strings.Capitalize, Strings.IsDigit: ASCII only. Python also maps non-ASCII letters, and `isdigit` accepts Unicode digits such as '²' on which `int()` raises.
- Python exception texts: all are `Client.MalformedText`.

## Findings

| source | as written | input that shows it | evidently intended | confidence | as-written member | corrected member |
|---|---|---|---|---|---|---|
| pg_graphql_mcp.py:203-226 | when the reply lacks `data` or `__schema`, `list_tables` returns the decoded dict instead of JSON text | a server answering `{"data": {}}` | serialize the reply like every other path | not executed | Catalog.ListTablesAsWrittenLeaksDict | Catalog.ListTables |
| examples/user_demo.py:48-71 | `demo_available_tables` falls off the end and returns None when the reply lacks `data` or `__schema`; the main block's `"accountCollection" in None` then raises TypeError | a server answering `{"data": {}}` | return the empty list, as the other failures do | not executed | UserDemo.MainCrashesWithoutSchema | UserDemo.MainPlan |
| examples/news_demo.py:243-363 | end of input raises EOFError, which `except Exception` catches; the loop then repeats and reads again forever | input `1` followed by end of input | leave the loop at end of input, as at Ctrl-C | not executed | NewsDemo.AsWrittenNeverExits | NewsDemo.SessionAgreesUntilEnd |
