/**
 The news demo (examples/news_demo.py): the client-side keyword search over the
 returned news nodes, how many matches are shown, and the interactive menu loop
 that reads choices, counts and keywords from the input.
 */
module NewsDemo {
  import opened Wrappers
  import opened Json
  import Strings
  import Seqs
  import Client

  /** The keyword the scripted search looks for. */
  const DemoKeyword: string := "economy"
  /** At most this many matches are printed by the scripted search... */
  const DemoShown: nat := 5
  /** ...and at most this many by the interactive one. */
  const InteractiveShown: nat := 10

  /** The query of the scripted search: fifty news items. */
  const DemoSearchQuery: string :=
    "\n    {\n      newsCollection(first: 50) {\n        edges {\n          node {\n            id\n"
    + "            title\n            source\n            time\n          }\n        }\n      }\n    }\n    "

  /** The query of the interactive search: a hundred news items. */
  const SearchQuery: string :=
    "\n                    {\n                      newsCollection(first: 100) {\n"
    + "                        edges {\n                          node {\n"
    + "                            id\n                            title\n                            url\n"
    + "                            source\n                            time\n                          }\n"
    + "                        }\n                      }\n                    }\n                    "

  /** The query of menu choice 1: the latest five news items. */
  const LatestQuery: string :=
    "\n                {\n                  newsCollection(first: 5) {\n                    edges {\n"
    + "                      node {\n                        id\n                        title\n"
    + "                        url\n                        source\n                        time\n"
    + "                      }\n                    }\n                  }\n                }\n                "

  /** The text of menu choice 2's query around the inlined count. */
  const CountHead: string := "\n                    {\n                      newsCollection(first: "
  const CountTail: string :=
    ") {\n                        edges {\n                          node {\n"
    + "                            id\n                            title\n                            url\n"
    + "                            source\n                            time\n                          }\n"
    + "                        }\n                      }\n                    }\n                    "

  /** `node['title']`, which must be a string for `.lower()` to apply. */
  function Title(node: Value): Option<string> {
    match Index(node, "title")
    case Some(Str(t)) => Some(t)
    case _ => None
  }

  /** The filter's loop body gets through this edge: it has a node, and the node a string title. */
  predicate Readable(edge: Value) {
    Index(edge, "node").Some? && Title(Index(edge, "node").value).Some?
  }

  /** `keyword.lower() in node['title'].lower()`. */
  predicate Mentions(keyword: string, node: Value) {
    Title(node).Some? && Strings.Contains(Strings.Lower(Title(node).value), Strings.Lower(keyword))
  }

  /** The search condition as a predicate on nodes. */
  function KeywordMatch(keyword: string): Value -> bool {
    node => Mentions(keyword, node)
  }

  /** `edge["node"]` of an edge the filter gets through. */
  function NodeOf(edge: Value): (node: Value)
    requires Readable(edge)
    ensures Index(edge, "node") == Some(node) && Title(node).Some?
  {
    Index(edge, "node").value
  }

  /** The node each edge holds, in order. */
  function Nodes(edges: seq<Value>): (nodes: seq<Value>)
    requires forall k :: 0 <= k < |edges| ==> Readable(edges[k])
    ensures |nodes| == |edges|
    ensures forall k :: 0 <= k < |edges| ==> Index(edges[k], "node") == Some(nodes[k])
  {
    seq(|edges|, k requires 0 <= k < |edges| => NodeOf(edges[k]))
  }

  lemma NodesCons(edges: seq<Value>)
    requires edges != [] && forall k :: 0 <= k < |edges| ==> Readable(edges[k])
    ensures Nodes(edges) == [NodeOf(edges[0])] + Nodes(edges[1..])
  {
  }

  /**
   The client-side filter: it raises at an edge without a node or a node without a string
   title, and otherwise keeps exactly the nodes that mention the keyword, in order.
   */
  function FilterNews(keyword: string, edges: seq<Value>): (r: Option<seq<Value>>)
    ensures r.Some? <==> forall k :: 0 <= k < |edges| ==> Readable(edges[k])
    ensures r.Some? ==> r.value == Seqs.Filter(KeywordMatch(keyword), Nodes(edges))
    decreases |edges|
  {
    if edges == [] then Some([])
    else
      var rest := FilterNews(keyword, edges[1..]);
      assert forall k :: 1 <= k < |edges| ==> edges[k] == edges[1..][k - 1];
      if !Readable(edges[0]) || rest.None? then None
      else
        NodesCons(edges);
        var node := NodeOf(edges[0]);
        if Mentions(keyword, node) then Some([node] + rest.value) else rest
  }

  /** The matches keep the order of the nodes: deleting the others gives them. */
  lemma FilterNewsSubsequence(keyword: string, edges: seq<Value>, matches: seq<Value>)
    requires FilterNews(keyword, edges) == Some(matches)
    ensures Seqs.IsSubsequence(matches, Nodes(edges))
  {
    Seqs.FilterIsSubsequence(KeywordMatch(keyword), Nodes(edges));
  }

  /** Every match mentions the keyword. */
  lemma FilterNewsOnlyMatches(keyword: string, edges: seq<Value>, matches: seq<Value>)
    requires FilterNews(keyword, edges) == Some(matches)
    ensures forall i :: 0 <= i < |matches| ==> Mentions(keyword, matches[i])
  {
    var p := KeywordMatch(keyword);
    forall i | 0 <= i < |matches|
      ensures Mentions(keyword, matches[i])
    {
      assert p(matches[i]);
    }
  }

  /** Every node that mentions the keyword is among the matches. */
  lemma FilterNewsAllMatches(keyword: string, edges: seq<Value>, matches: seq<Value>)
    requires FilterNews(keyword, edges) == Some(matches)
    ensures forall k :: 0 <= k < |edges| && Mentions(keyword, Nodes(edges)[k]) ==> Nodes(edges)[k] in matches
  {
    var nodes := Nodes(edges);
    var p := KeywordMatch(keyword);
    forall k | 0 <= k < |edges| && Mentions(keyword, nodes[k])
      ensures nodes[k] in matches
    {
      assert p(nodes[k]);
    }
  }

  /** There are as many matches as nodes mentioning the keyword. */
  lemma FilterNewsCount(keyword: string, edges: seq<Value>, matches: seq<Value>)
    requires FilterNews(keyword, edges) == Some(matches)
    ensures |matches| == Seqs.Count(KeywordMatch(keyword), Nodes(edges))
  {
    Seqs.FilterLength(KeywordMatch(keyword), Nodes(edges));
  }

  /** Lower-casing twice is lower-casing once. */
  lemma LowerIdempotent(s: string)
    ensures Strings.Lower(Strings.Lower(s)) == Strings.Lower(s)
  {
    var l := Strings.Lower(s);
    assert forall i :: 0 <= i < |s| ==> Strings.LowerChar(l[i]) == l[i];
  }

  /** The search ignores the case of the keyword. */
  lemma {:induction false} KeywordCaseIgnored(keyword: string, edges: seq<Value>)
    ensures FilterNews(keyword, edges) == FilterNews(Strings.Lower(keyword), edges)
    decreases |edges|
  {
    LowerIdempotent(keyword);
    if edges != [] {
      KeywordCaseIgnored(keyword, edges[1..]);
    }
  }

  /** An empty keyword is found in every title, so it keeps every node. */
  lemma {:induction false} EmptyKeywordKeepsAll(edges: seq<Value>)
    requires forall k :: 0 <= k < |edges| ==> Readable(edges[k])
    ensures FilterNews("", edges) == Some(Nodes(edges))
    decreases |edges|
  {
    if edges != [] {
      assert forall k :: 1 <= k < |edges| ==> edges[k] == edges[1..][k - 1];
      EmptyKeywordKeepsAll(edges[1..]);
      NodesCons(edges);
      var node := NodeOf(edges[0]);
      assert Strings.StartsWith(Strings.Lower(Title(node).value), "");
    }
  }

  /** Every key in `keys` can be read from the node. */
  predicate Printable(node: Value, keys: seq<string>) {
    forall j :: 0 <= j < |keys| ==> Index(node, keys[j]).Some?
  }

  /** The matches printed in full before a print line raises on a missing key. */
  function PrintedPrefix(nodes: seq<Value>, keys: seq<string>): (r: seq<Value>)
    ensures |r| <= |nodes| && r == nodes[..|r|]
    ensures forall i :: 0 <= i < |r| ==> Printable(r[i], keys)
    ensures |r| < |nodes| ==> !Printable(nodes[|r|], keys)
    decreases |nodes|
  {
    if nodes == [] || !Printable(nodes[0], keys) then []
    else
      var rest := PrintedPrefix(nodes[1..], keys);
      assert forall i :: 0 <= i < |rest| ==> rest[i] == nodes[i + 1];
      [nodes[0]] + rest
  }

  /** What a search prints: a failure, no match, or the number of matches and those shown. */
  datatype Report =
    | Failed                                                  // an exception reached the handler
    | NothingFound
    | Listed(total: nat, shown: seq<Value>, complete: bool)   // complete: no print line raised

  /** `result["data"]["newsCollection"]["edges"]`, iterated. */
  function EdgesOf(result: Value): Option<seq<Value>> {
    var data := Index(result, "data");
    var collection := if data.Some? then Index(data.value, "newsCollection") else None;
    var edges := if collection.Some? then Index(collection.value, "edges") else None;
    if edges.None? then None else Elements(edges.value)
  }

  /** The matches of a search, or None when the query failed or the filter raised. */
  function Matches(reply: Result<Value, Client.QueryError>, keyword: string): (r: Option<seq<Value>>)
    ensures r.Some? <==> reply.Ok? && EdgesOf(reply.value).Some? && FilterNews(keyword, EdgesOf(reply.value).value).Some?
    ensures r.Some? ==> r == FilterNews(keyword, EdgesOf(reply.value).value)
  {
    if reply.Err? then None
    else match EdgesOf(reply.value)
      case None => None
      case Some(edges) => FilterNews(keyword, edges)
  }

  /**
   A search from the query's outcome on: filter the edges, then print the count and at
   most `limit` matches, each line reading `keys` from the node.
   */
  function SearchOutcome(reply: Result<Value, Client.QueryError>, keyword: string, limit: nat,
                         keys: seq<string>): (r: Report)
    ensures r.Failed? <==> Matches(reply, keyword).None?
    ensures r.NothingFound? <==> Matches(reply, keyword) == Some([])
    ensures r.Listed? ==> (r.total == |Matches(reply, keyword).value| > 0 && |r.shown| <= limit
      && |r.shown| <= r.total && r.shown == Matches(reply, keyword).value[..|r.shown|]
      && (r.complete <==> |r.shown| == limit || |r.shown| == r.total))
  {
    match Matches(reply, keyword)
    case None => Failed
    case Some(matches) =>
      if matches == [] then NothingFound
      else
        var shown := Seqs.Take(matches, limit);
        var printed := PrintedPrefix(shown, keys);
        assert printed == matches[..|printed|] by {
          assert forall i :: 0 <= i < |printed| ==> printed[i] == shown[i] == matches[i];
        }
        assert |printed| == |shown| ==> printed == shown;
        Listed(|matches|, printed, printed == shown)
  }

  /**
   A listing counts the nodes that mention the keyword, and every item it shows mentions
   it: the count and the lines printed come from the filtered edges of the reply.
   */
  lemma ListingShowsMatches(reply: Result<Value, Client.QueryError>, keyword: string, limit: nat,
                            keys: seq<string>, edges: seq<Value>)
    requires reply.Ok? && EdgesOf(reply.value) == Some(edges)
    ensures var r := SearchOutcome(reply, keyword, limit, keys);
      r.Listed? ==> (forall k :: 0 <= k < |edges| ==> Readable(edges[k]))
                    && r.total == Seqs.Count(KeywordMatch(keyword), Nodes(edges))
                    && forall i :: 0 <= i < |r.shown| ==> Mentions(keyword, r.shown[i])
  {
    var r := SearchOutcome(reply, keyword, limit, keys);
    if !r.Listed? {
      return;
    }
    var matches := Matches(reply, keyword).value;
    assert FilterNews(keyword, edges) == Some(matches);
    FilterNewsCount(keyword, edges, matches);
    FilterNewsOnlyMatches(keyword, edges, matches);
    forall i | 0 <= i < |r.shown|
      ensures Mentions(keyword, r.shown[i])
    {
      assert r.shown[i] == matches[i];
    }
  }

  /** The scripted search: fifty items, keyword `economy`, five shown with title and source. */
  function DemoSearch(transport: Value -> Client.Outcome): Report {
    SearchOutcome(Client.ExecuteQuery(transport, DemoSearchQuery, None, None), DemoKeyword, DemoShown,
                  ["title", "source"])
  }

  /** The interactive search: a hundred items, ten shown with title, source and time. */
  function InteractiveSearch(transport: Value -> Client.Outcome, keyword: string): Report {
    SearchOutcome(Client.ExecuteQuery(transport, SearchQuery, None, None), keyword, InteractiveShown,
                  ["title", "source", "time"])
  }

  /** However many news items match, the scripted search shows at most five and the interactive ten. */
  lemma ShownLimits(transport: Value -> Client.Outcome, keyword: string)
    ensures DemoSearch(transport).Listed? ==> |DemoSearch(transport).shown| <= 5
    ensures InteractiveSearch(transport, keyword).Listed? ==> |InteractiveSearch(transport, keyword).shown| <= 10
  {
  }

  /** Menu choice 2's query for `count` items. */
  function CountQuery(count: nat): string {
    CountHead + Strings.NatToString(count) + CountTail
  }

  /** A count typed without leading zeros is inlined exactly as typed. */
  lemma CountQueryInlinesTyped(typed: string)
    requires Strings.IsCanonicalDigits(typed)
    ensures CountQuery(Strings.DigitsValue(typed)) == CountHead + typed + CountTail
  {
    Strings.NatToStringOfDigitsValue(typed);
  }

  /** The number inlined in the count query reads back as the count. */
  lemma CountQueryReadsBack(count: nat)
    ensures var q := CountQuery(count);
      |CountHead| + |Strings.NatToString(count)| <= |q|
      && Strings.DigitsValue(q[|CountHead|..|CountHead| + |Strings.NatToString(count)|]) == count
  {
    Strings.MiddleOfConcat(CountHead, Strings.NatToString(count), CountTail);
    Strings.DigitsValueOfNatToString(count);
  }

  /** One read of `input()`: a line, the end of the input (EOFError), or Ctrl-C (KeyboardInterrupt). */
  datatype Input = Line(text: string) | EndOfInput | Interrupt

  /** What one turn of the menu loop does. */
  datatype Action =
    | ShowLatest
    | ShowCount(count: nat)
    | RejectCount            // "Please enter a valid number"
    | Search(keyword: string)
    | SkipSearch             // an empty keyword: nothing happens
    | InvalidChoice          // "Invalid choice, please try again"
    | OperationFailed        // an exception other than KeyboardInterrupt was caught; here only EOFError
    | Quit                   // choice 4
    | Interrupted            // KeyboardInterrupt
    | InputClosed            // the end of the input, in the corrected loop only

  /** The action ends the loop. */
  predicate Ends(a: Action) {
    a == Quit || a == Interrupted || a == InputClosed
  }

  /** The query an action sends. */
  function QueryOf(a: Action): Option<string> {
    match a
    case ShowLatest => Some(LatestQuery)
    case ShowCount(n) => Some(CountQuery(n))
    case Search(_) => Some(SearchQuery)
    case _ => None
  }

  /** Every line as `.strip()` leaves it; the loop strips each answer as soon as it reads it. */
  function Stripped(inputs: seq<Input>): (lines: seq<Input>)
    ensures |lines| == |inputs|
    ensures forall k :: 0 <= k < |inputs| ==>
      (lines[k].Line? <==> inputs[k].Line?)
      && (inputs[k].Line? ==> lines[k].text == Strings.Strip(inputs[k].text))
      && (!inputs[k].Line? ==> lines[k] == inputs[k])
  {
    seq(|inputs|, k requires 0 <= k < |inputs| =>
      match inputs[k]
      case Line(text) => Line(Strings.Strip(text))
      case other => other)
  }

  /** No stripped line starts or ends with whitespace. */
  lemma StrippedUnpadded(inputs: seq<Input>)
    ensures forall k :: 0 <= k < |inputs| && Stripped(inputs)[k].Line? ==> Strings.Unpadded(Stripped(inputs)[k].text)
  {
    forall k | 0 <= k < |inputs| && Stripped(inputs)[k].Line?
      ensures Strings.Unpadded(Stripped(inputs)[k].text)
    {
      Strings.StripTrims(inputs[k].text);
    }
  }

  /**
   The (stripped) input at position `pos`. Once the sequence is exhausted every read hits
   its end, as on a closed pipe; an `EndOfInput` inside the sequence is a terminal's Ctrl-D,
   which one read consumes.
   */
  function Read(lines: seq<Input>, pos: nat): Input {
    if pos < |lines| then lines[pos] else EndOfInput
  }

  /** The follow-up prompt of choices 2 and 3, read at `pos`. */
  function FollowUp(lines: seq<Input>, pos: nat, counting: bool): (r: (Action, nat))
    ensures r.1 == pos + 1
  {
    match Read(lines, pos)
    case Interrupt => (Interrupted, pos + 1)
    case EndOfInput => (OperationFailed, pos + 1)
    case Line(answer) =>
      if counting then
        (if Strings.IsDigits(answer) then ShowCount(Strings.DigitsValue(answer)) else RejectCount, pos + 1)
      else
        (if answer != "" then Search(answer) else SkipSearch, pos + 1)
  }

  /** A turn from `pos` hits the end of the input: at the menu prompt, or at the follow-up of `2` or `3`. */
  predicate EndRead(lines: seq<Input>, pos: nat) {
    Read(lines, pos).EndOfInput?
    || ((Read(lines, pos) == Line("2") || Read(lines, pos) == Line("3")) && Read(lines, pos + 1).EndOfInput?)
  }

  /**
   One turn of `interactive_news_query` as written, from position `pos` of the stripped
   lines: the action taken and where the next turn reads. An end of input is consumed by
   the read that hits it and then caught like any other error, so the loop goes on.
   */
  function TurnAsWritten(lines: seq<Input>, pos: nat): (r: (Action, nat))
    ensures r.0 != InputClosed
    ensures r.0 == OperationFailed <==> EndRead(lines, pos)
    ensures Read(lines, pos).EndOfInput? ==> r == (OperationFailed, pos + 1)
    ensures pos < r.1 <= pos + 2
    ensures r.0 != OperationFailed ==> r.1 <= |lines|
  {
    match Read(lines, pos)
    case Interrupt => (Interrupted, pos + 1)
    case EndOfInput => (OperationFailed, pos + 1)
    case Line(choice) =>
      if choice == "1" then (ShowLatest, pos + 1)
      else if choice == "2" then FollowUp(lines, pos + 1, true)
      else if choice == "3" then FollowUp(lines, pos + 1, false)
      else if choice == "4" then (Quit, pos + 1)
      else (InvalidChoice, pos + 1)
  }

  /**
   What a turn does with the choice read: `4` quits, anything but `1` to `4` is an invalid
   choice; after `2` an all-digit line is shown as a count and any other line is rejected;
   after `3` a non-empty line is searched for and an empty one skips the search.
   */
  lemma TurnChoices(lines: seq<Input>, pos: nat)
    ensures var r := TurnAsWritten(lines, pos);
      (r.0 == Quit <==> Read(lines, pos) == Line("4"))
      && (r.0 == InvalidChoice <==> Read(lines, pos).Line? && Read(lines, pos).text !in {"1", "2", "3", "4"})
      && (r.0 == RejectCount ==> Read(lines, pos + 1).Line? && !Strings.IsDigits(Read(lines, pos + 1).text))
      && (r.0.ShowCount? ==> (Read(lines, pos + 1).Line? && Strings.IsDigits(Read(lines, pos + 1).text)
                              && r.0.count == Strings.DigitsValue(Read(lines, pos + 1).text)))
      && (r.0.Search? ==> r.0.keyword != [] && Read(lines, pos + 1) == Line(r.0.keyword))
      && (r.0 == SkipSearch ==> Read(lines, pos + 1) == Line(""))
      && (Read(lines, pos) == Line("2") && Read(lines, pos + 1).Line? && !Strings.IsDigits(Read(lines, pos + 1).text)
          ==> r.0 == RejectCount)
      && (Read(lines, pos) == Line("3") && Read(lines, pos + 1).Line? && Read(lines, pos + 1).text != ""
          ==> r.0 == Search(Read(lines, pos + 1).text))
      && (Read(lines, pos) == Line("3") && Read(lines, pos + 1) == Line("") ==> r.0 == SkipSearch)
  {
  }

  /** The first `turns` turns of the loop as written, or fewer if it ends. */
  function RunAsWritten(lines: seq<Input>, pos: nat, turns: nat): (actions: seq<Action>)
    ensures |actions| <= turns
    decreases turns
  {
    if turns == 0 then []
    else
      var turn := TurnAsWritten(lines, pos);
      if Ends(turn.0) then [turn.0] else [turn.0] + RunAsWritten(lines, turn.1, turns - 1)
  }

  /**
   The loop as written stops at its first ending action: no earlier action ends it, and a
   run shorter than its budget of turns ends on an ending action.
   */
  lemma {:induction false} RunStopsAtFirstEnd(lines: seq<Input>, pos: nat, turns: nat)
    ensures var actions := RunAsWritten(lines, pos, turns);
      (forall i :: 0 <= i < |actions| - 1 ==> !Ends(actions[i]))
      && (|actions| < turns ==> |actions| >= 1 && Ends(actions[|actions| - 1]))
    decreases turns
  {
    if turns > 0 {
      var turn := TurnAsWritten(lines, pos);
      if !Ends(turn.0) {
        var rest := RunAsWritten(lines, turn.1, turns - 1);
        RunStopsAtFirstEnd(lines, turn.1, turns - 1);
        assert RunAsWritten(lines, pos, turns) == [turn.0] + rest;
        assert forall i :: 0 < i < |rest| + 1 ==> ([turn.0] + rest)[i] == rest[i - 1];
      }
    }
  }

  /** Once the input is exhausted, the loop as written fails every turn and never ends. */
  lemma {:induction false} AsWrittenSpinsAtEnd(lines: seq<Input>, pos: nat, turns: nat)
    requires pos >= |lines|
    ensures |RunAsWritten(lines, pos, turns)| == turns
    ensures forall i :: 0 <= i < turns ==> RunAsWritten(lines, pos, turns)[i] == OperationFailed
    decreases turns
  {
    if turns > 0 {
      AsWrittenSpinsAtEnd(lines, pos + 1, turns - 1);
    }
  }

  /** Input that just runs out: `1` and nothing more. */
  function OneChoiceThenEnd(): seq<Input> {
    [Line("1")]
  }

  /** After showing the latest news once, the loop as written fails forever without exiting. */
  lemma AsWrittenNeverExits(turns: nat)
    requires turns >= 1
    ensures var run := RunAsWritten(Stripped(OneChoiceThenEnd()), 0, turns);
      |run| == turns && run[0] == ShowLatest && forall i :: 0 <= i < turns ==> !Ends(run[i])
  {
    Strings.StripUnpadded("1");
    assert Stripped(OneChoiceThenEnd()) == [Line("1")];
    AsWrittenSpinsAtEnd([Line("1")], 1, turns - 1);
  }

  /** One turn with the end of the input ending the loop, as Ctrl-C does. */
  function Turn(lines: seq<Input>, pos: nat): (r: (Action, nat))
    ensures r.0 != OperationFailed
    ensures r.0 == InputClosed <==> TurnAsWritten(lines, pos).0 == OperationFailed
    ensures r.0 != InputClosed ==> r == TurnAsWritten(lines, pos)
    ensures !Ends(r.0) ==> pos < r.1 <= |lines|
  {
    var w := TurnAsWritten(lines, pos);
    if EndRead(lines, pos) then (InputClosed, w.1) else w
  }

  /** The corrected loop: it always ends, and the last action is the one that ended it. */
  function Session(lines: seq<Input>, pos: nat): (actions: seq<Action>)
    ensures |actions| >= 1 && Ends(actions[|actions| - 1])
    ensures forall i :: 0 <= i < |actions| - 1 ==> !Ends(actions[i])
    decreases |lines| - pos
  {
    var turn := Turn(lines, pos);
    if Ends(turn.0) then [turn.0]
    else
      var rest := Session(lines, turn.1);
      assert forall i :: 0 < i < |rest| + 1 ==> ([turn.0] + rest)[i] == rest[i - 1];
      [turn.0] + rest
  }

  /** A corrected turn that does not end the loop is followed by the rest of the session. */
  lemma SessionStep(lines: seq<Input>, pos: nat)
    requires !Ends(Turn(lines, pos).0)
    ensures Session(lines, pos) == [Turn(lines, pos).0] + Session(lines, Turn(lines, pos).1)
  {
  }

  /** A turn as written that does not end the loop is followed by the remaining turns. */
  lemma RunStep(lines: seq<Input>, pos: nat, turns: nat)
    requires turns > 0 && !Ends(TurnAsWritten(lines, pos).0)
    ensures RunAsWritten(lines, pos, turns)
         == [TurnAsWritten(lines, pos).0] + RunAsWritten(lines, TurnAsWritten(lines, pos).1, turns - 1)
  {
  }

  /**
   Two runs of the same length agree turn for turn except at the last, where the first
   closes exactly when the second fails, and otherwise does the same.
   */
  predicate AgreeUntilEnd(s: seq<Action>, w: seq<Action>) {
    |w| == |s| >= 1 && (forall i :: 0 <= i < |s| - 1 ==> s[i] == w[i])
    && (s[|s| - 1] == InputClosed <==> w[|s| - 1] == OperationFailed)
    && (s[|s| - 1] != InputClosed ==> s[|s| - 1] == w[|s| - 1])
  }

  /** Putting the same turn in front of two agreeing runs keeps them agreeing. */
  lemma AgreeCons(a: Action, s: seq<Action>, w: seq<Action>)
    requires AgreeUntilEnd(s, w)
    ensures AgreeUntilEnd([a] + s, [a] + w)
  {
    var s', w' := [a] + s, [a] + w;
    forall i | 0 <= i < |s'| - 1
      ensures s'[i] == w'[i]
    {
      if i > 0 {
        assert s'[i] == s[i - 1] && w'[i] == w[i - 1];
      }
    }
    assert s'[|s'| - 1] == s[|s| - 1] && w'[|s'| - 1] == w[|s| - 1];
  }

  /** A corrected turn that ends the loop is the whole rest of the session, and one turn as written. */
  lemma SessionEndsHere(lines: seq<Input>, pos: nat)
    requires Ends(Turn(lines, pos).0)
    ensures Session(lines, pos) == [Turn(lines, pos).0]
    ensures RunAsWritten(lines, pos, 1) == [TurnAsWritten(lines, pos).0]
    ensures AgreeUntilEnd(Session(lines, pos), RunAsWritten(lines, pos, 1))
  {
  }

  /**
   Until it ends, the corrected loop does what the loop as written does, turn for turn;
   where the input runs out, the one fails and goes on and the other stops.
   */
  lemma {:induction false} SessionAgreesUntilEnd(lines: seq<Input>, pos: nat)
    ensures AgreeUntilEnd(Session(lines, pos), RunAsWritten(lines, pos, |Session(lines, pos)|))
    decreases |lines| - pos
  {
    var turn := Turn(lines, pos);
    if Ends(turn.0) {
      SessionEndsHere(lines, pos);
    } else {
      var s := Session(lines, pos);
      SessionStep(lines, pos);
      RunStep(lines, pos, |s|);
      SessionAgreesUntilEnd(lines, turn.1);
      var rest := Session(lines, turn.1);
      var w := RunAsWritten(lines, turn.1, |rest|);
      assert s == [turn.0] + rest;
      assert RunAsWritten(lines, pos, |s|) == [turn.0] + w;
      AgreeCons(turn.0, rest, w);
    }
  }

  /** `interactive_news_query` on the given input, with the end of the input ending it. */
  function Interactive(inputs: seq<Input>): seq<Action> {
    Session(Stripped(inputs), 0)
  }

  /** The session on any input ends, and only its last action ends it. */
  lemma InteractiveEnds(inputs: seq<Input>)
    ensures var actions := Interactive(inputs);
      |actions| >= 1 && Ends(actions[|actions| - 1])
      && forall i :: 0 <= i < |actions| - 1 ==> !Ends(actions[i])
  {
  }

  /**
   On any input the session does what `interactive_news_query` as written does, turn for
   turn, except that it closes where the original fails at the end of the input.
   */
  lemma InteractiveAgreesAsWritten(inputs: seq<Input>)
    ensures AgreeUntilEnd(Interactive(inputs), RunAsWritten(Stripped(inputs), 0, |Interactive(inputs)|))
  {
    SessionAgreesUntilEnd(Stripped(inputs), 0);
  }

  /** Choice 4 at any turn ends the session there, surrounding blanks and all. */
  lemma FourQuits(inputs: seq<Input>, pos: nat)
    requires pos < |inputs| && inputs[pos].Line? && Strings.Strip(inputs[pos].text) == "4"
    ensures Session(Stripped(inputs), pos) == [Quit]
  {
  }

  /** Stripping leaves the choice `2` and a typed count as they are. */
  lemma CountLinesUnchanged(inputs: seq<Input>, pos: nat, typed: string)
    requires pos + 1 < |inputs| && inputs[pos] == Line("2") && inputs[pos + 1] == Line(typed)
    requires Strings.IsDigits(typed)
    ensures Read(Stripped(inputs), pos) == Line("2") && Read(Stripped(inputs), pos + 1) == Line(typed)
  {
    Strings.StripUnpadded("2");
    Strings.DigitsUnpadded(typed);
  }

  /** Choice `2` followed by an all-digit line shows that many items. */
  lemma CountTurn(lines: seq<Input>, pos: nat, typed: string)
    requires Read(lines, pos) == Line("2") && Read(lines, pos + 1) == Line(typed)
    requires Strings.IsDigits(typed)
    ensures TurnAsWritten(lines, pos).0 == ShowCount(Strings.DigitsValue(typed))
  {
    assert TurnAsWritten(lines, pos) == FollowUp(lines, pos + 1, true);
  }

  /** A count the user types is sent only when it is all digits, and then inlined as typed. */
  lemma CountSentAsTyped(inputs: seq<Input>, pos: nat, typed: string)
    requires pos + 1 < |inputs| && inputs[pos] == Line("2") && inputs[pos + 1] == Line(typed)
    requires Strings.IsCanonicalDigits(typed)
    ensures QueryOf(TurnAsWritten(Stripped(inputs), pos).0) == Some(CountHead + typed + CountTail)
  {
    CountLinesUnchanged(inputs, pos, typed);
    CountTurn(Stripped(inputs), pos, typed);
    CountQueryInlinesTyped(typed);
  }

  /** `input("Start interactive mode? (y/n): ").strip().lower() == 'y'`; None when EOFError escapes. */
  function StartsInteractive(response: Input): (r: Option<bool>)
    ensures r.None? <==> response.EndOfInput?
    ensures r == Some(true) <==> response.Line? && Strings.Strip(response.text) in {"y", "Y"}
  {
    match response
    case Line(text) =>
      Strings.LowerIsY(Strings.Strip(text));
      Some(Strings.Lower(Strings.Strip(text)) == "y")
    case Interrupt => Some(false)
    case EndOfInput => None
  }
}
