/**
 The caller-driven cursor loop of `demo_pagination` (examples/pagination_demo.py):
 up to three calls of the collection tool for `news`, three records each, each
 later call resuming after the previous page's `endCursor`. The replies are the
 decoded values the tool returned, one per call, in order.
 */
module Pagination {
  import opened Wrappers
  import opened Json
  import Naming
  import Strings
  import Collections

  const PageSize: int := 3
  const TotalPages: nat := 3
  const DemoCollection: string := "news"

  /** A saved page: its number, its `edges` and its `pageInfo`. */
  datatype PageRecord = PageRecord(page: nat, records: Value, pageInfo: Value)

  /** Why the loop ended. */
  datatype Stop = NoMorePages | ErrorReported | Raised | BudgetSpent

  /** One run: the `after` argument of each call made (`Null` for None), the saved pages, the stop. */
  datatype Run = Run(cursors: seq<Value>, pages: seq<PageRecord>, stop: Stop)

  /** What one reply makes the loop body do. */
  datatype Step =
    | Report                                                  // the reply has an `error` key
    | Crash                                                   // Python raised before the page was saved
    | CrashAfterSaving(records: Value, pageInfo: Value)       // saved, then `page_info.get` raised
    | Save(records: Value, pageInfo: Value, next: Option<Value>)  // saved; the next cursor, if any
    | Skip                                                    // neither `error` nor `data`

  /** `len(edges)` and `[edge["node"]["id"] for edge in edges]` both succeed. */
  predicate RecordIdsReadable(edges: Value) {
    Len(edges).Some? && Elements(edges).Some?
    && forall k :: 0 <= k < |Elements(edges).value| ==>
      var node := Index(Elements(edges).value[k], "node");
      node.Some? && Index(node.value, "id").Some?
  }

  /**
   The reply holds a page the loop saves: a dict without `error`, whose
   `data.newsCollection` is a dict with `edges` and `pageInfo`, and whose record ids can
   be listed.
   */
  predicate HoldsPage(reply: Value) {
    reply.Obj? && "error" !in reply.fields && "data" in reply.fields
    && reply.fields["data"].Obj? && Naming.RootField(DemoCollection) in reply.fields["data"].fields
    && var c := reply.fields["data"].fields[Naming.RootField(DemoCollection)];
       c.Obj? && "edges" in c.fields && "pageInfo" in c.fields && RecordIdsReadable(c.fields["edges"])
  }

  /** `result["data"]["newsCollection"]` of a reply that holds a page. */
  function PageCollection(reply: Value): Value
    requires HoldsPage(reply)
  {
    reply.fields["data"].fields[Naming.RootField(DemoCollection)]
  }

  /**
   The loop body on one reply. `"error" in result` is a key test on a dict but a
   substring or element test on a string or a list; on those `result['error']` then raises.
   */
  function StepOf(reply: Value): (r: Step)
    ensures r.Report? <==> reply.Obj? && "error" in reply.fields
    ensures r.Skip? <==> Member("error", reply) == Some(false) && Member("data", reply) == Some(false)
    ensures Saves(r) <==> HoldsPage(reply)
    ensures Saves(r) ==> (r.records == PageCollection(reply).fields["edges"]
                          && r.pageInfo == PageCollection(reply).fields["pageInfo"]
                          && (r.Save? <==> r.pageInfo.Obj?))
    ensures r.Save? ==> (r.next.Some? <==>
      Truthy(Get(r.pageInfo, "hasNextPage", Bool(false)).value) && Truthy(Get(r.pageInfo, "endCursor", Null).value))
    ensures r.Save? && r.next.Some? ==> r.next.value == r.pageInfo.fields["endCursor"]
  {
    match Member("error", reply)
    case None => Crash
    case Some(true) => if reply.Obj? then Report else Crash
    case Some(false) =>
      if Member("data", reply) != Some(true) then
        (if Member("data", reply) == Some(false) then Skip else Crash)
      else
        var data := Index(reply, "data");
        var collection := if data.Some? then Index(data.value, Naming.RootField(DemoCollection)) else None;
        var edges := if collection.Some? then Index(collection.value, "edges") else None;
        var info := if collection.Some? then Index(collection.value, "pageInfo") else None;
        if edges.None? || info.None? || !RecordIdsReadable(edges.value) then Crash
        else if !info.value.Obj? then CrashAfterSaving(edges.value, info.value)
        else
          var hasNext := Get(info.value, "hasNextPage", Bool(false)).value;
          var endCursor := Get(info.value, "endCursor", Null).value;
          if !Truthy(hasNext) || !Truthy(endCursor) then Save(edges.value, info.value, None)
          else Save(edges.value, info.value, Some(endCursor))
  }

  /** A string or list that merely contains "error" makes the body raise, not report. */
  lemma ErrorTextRaises()
    ensures StepOf(Str("error")) == Crash
    ensures StepOf(Arr([Str("error")])) == Crash
  {
    assert Strings.Contains("error", "error");
  }

  /** The loop body's verdict on every reply, in call order. */
  function Steps(replies: seq<Value>): (steps: seq<Step>)
    ensures |steps| == |replies|
    ensures forall k :: 0 <= k < |replies| ==> steps[k] == StepOf(replies[k])
  {
    seq(|replies|, k requires 0 <= k < |replies| => StepOf(replies[k]))
  }

  /** The step lets the loop go on to another call. */
  predicate Continues(s: Step) {
    s.Skip? || (s.Save? && s.next.Some?)
  }

  /** The cursor the next call uses: the new `endCursor`, or the old cursor after a skipped reply. */
  function Advance(s: Step, cursor: Value): Value {
    match s
    case Save(_, _, Some(c)) => c
    case _ => cursor
  }

  /** The stop a step that ends the loop causes. */
  function StopOf(s: Step): Stop {
    match s
    case Report => ErrorReported
    case Save(_, _, None) => NoMorePages
    case _ => Raised
  }

  /** The step saved a page. */
  predicate Saves(s: Step) {
    s.Save? || s.CrashAfterSaving?
  }

  /** The step saved exactly this record's contents. */
  predicate SavedFrom(s: Step, p: PageRecord) {
    Saves(s) && s.records == p.records && s.pageInfo == p.pageInfo
  }

  /** The call at position `k` of the run saved exactly this record's contents. */
  predicate SavedAtCall(steps: seq<Step>, k: int, p: PageRecord) {
    0 <= k < |steps| && SavedFrom(steps[k], p)
  }

  /** Page numbers strictly increase. */
  predicate Increasing(pages: seq<PageRecord>) {
    forall i, j :: 0 <= i < j < |pages| ==> pages[i].page < pages[j].page
  }

  /** The page a saving step records under number `page`. */
  function PageOf(s: Step, page: nat): PageRecord
    requires Saves(s)
  {
    PageRecord(page, s.records, s.pageInfo)
  }

  /** What one call adds to the saved pages: its page, if the step saved one. */
  function SavedPage(s: Step, page: nat): seq<PageRecord> {
    if Saves(s) then [PageOf(s, page)] else []
  }

  /**
   The loop from page number `page` on, with `budget` calls left and the current cursor;
   each call consumes the next step.
   */
  function Walk(steps: seq<Step>, budget: nat, page: nat, cursor: Value): (r: Run)
    requires |steps| >= budget
    ensures |r.cursors| <= budget && (|r.cursors| == 0 <==> budget == 0)
    ensures budget > 0 ==> r.cursors[0] == cursor
    decreases budget
  {
    if budget == 0 then Run([], [], BudgetSpent)
    else if !Continues(steps[0]) then Run([cursor], SavedPage(steps[0], page), StopOf(steps[0]))
    else
      var rest := Walk(steps[1..], budget - 1, page + 1, Advance(steps[0], cursor));
      Run([cursor] + rest.cursors, SavedPage(steps[0], page) + rest.pages, rest.stop)
  }

  /** One turn of the loop that goes on: the rest of the run follows from the remaining steps. */
  lemma WalkContinues(steps: seq<Step>, budget: nat, page: nat, cursor: Value)
    requires 0 < budget <= |steps| && Continues(steps[0])
    ensures var r := Walk(steps, budget, page, cursor);
      var rest := Walk(steps[1..], budget - 1, page + 1, Advance(steps[0], cursor));
      r.cursors == [cursor] + rest.cursors && r.pages == SavedPage(steps[0], page) + rest.pages
      && r.stop == rest.stop
  {
  }

  /** The last turn of a loop that stops by itself: one call, its page if it saved one, its stop. */
  lemma WalkEnds(steps: seq<Step>, budget: nat, page: nat, cursor: Value)
    requires 0 < budget <= |steps| && !Continues(steps[0])
    ensures Walk(steps, budget, page, cursor) == Run([cursor], SavedPage(steps[0], page), StopOf(steps[0]))
  {
  }

  /** Every call but the last follows a step that goes on, with the cursor that step advanced to. */
  lemma {:induction false} WalkCalls(steps: seq<Step>, budget: nat, page: nat, cursor: Value)
    requires |steps| >= budget
    ensures var r := Walk(steps, budget, page, cursor);
      forall k :: 0 <= k < |r.cursors| - 1 ==>
        Continues(steps[k]) && r.cursors[k + 1] == Advance(steps[k], r.cursors[k])
    decreases budget
  {
    if budget > 0 && Continues(steps[0]) {
      var next := Advance(steps[0], cursor);
      WalkContinues(steps, budget, page, cursor);
      WalkCalls(steps[1..], budget - 1, page + 1, next);
      var r := Walk(steps, budget, page, cursor);
      var rest := Walk(steps[1..], budget - 1, page + 1, next);
      forall k | 0 <= k < |r.cursors| - 1
        ensures Continues(steps[k]) && r.cursors[k + 1] == Advance(steps[k], r.cursors[k])
      {
        assert r.cursors[k + 1] == rest.cursors[k];
        if k > 0 {
          assert steps[1..][k - 1] == steps[k];
          assert r.cursors[k] == rest.cursors[k - 1];
        }
      }
    } else if budget > 0 {
      WalkEnds(steps, budget, page, cursor);
    }
  }

  /**
   The run spends its whole budget exactly when every call went on; otherwise the step of
   the last call did not go on, and it decides the stop.
   */
  lemma {:induction false} WalkStop(steps: seq<Step>, budget: nat, page: nat, cursor: Value)
    requires |steps| >= budget
    ensures var r := Walk(steps, budget, page, cursor);
      (r.stop == BudgetSpent <==> |r.cursors| == budget && (budget == 0 || Continues(steps[budget - 1])))
      && (r.stop != BudgetSpent ==> !Continues(steps[|r.cursors| - 1]) && r.stop == StopOf(steps[|r.cursors| - 1]))
    decreases budget
  {
    if budget > 0 && Continues(steps[0]) {
      var next := Advance(steps[0], cursor);
      WalkContinues(steps, budget, page, cursor);
      WalkStop(steps[1..], budget - 1, page + 1, next);
      var rest := Walk(steps[1..], budget - 1, page + 1, next);
      if |rest.cursors| > 0 {
        assert steps[1..][|rest.cursors| - 1] == steps[|rest.cursors|];
      }
      if budget > 1 {
        assert steps[1..][budget - 2] == steps[budget - 1];
      }
    } else if budget > 0 {
      WalkEnds(steps, budget, page, cursor);
    }
  }

  /** A run saves at most one page per call. */
  lemma {:induction false} WalkPageCount(steps: seq<Step>, budget: nat, page: nat, cursor: Value)
    requires |steps| >= budget
    ensures |Walk(steps, budget, page, cursor).pages| <= |Walk(steps, budget, page, cursor).cursors|
    decreases budget
  {
    if budget > 0 && Continues(steps[0]) {
      WalkContinues(steps, budget, page, cursor);
      WalkPageCount(steps[1..], budget - 1, page + 1, Advance(steps[0], cursor));
    } else if budget > 0 {
      WalkEnds(steps, budget, page, cursor);
    }
  }

  /** The `i`-th saved page is numbered by a call of the run and holds that call's reply. */
  lemma {:induction false} WalkPageAt(steps: seq<Step>, budget: nat, page: nat, cursor: Value, i: nat)
    requires |steps| >= budget && i < |Walk(steps, budget, page, cursor).pages|
    ensures var r := Walk(steps, budget, page, cursor);
      page <= r.pages[i].page < page + |r.cursors| && SavedAtCall(steps, r.pages[i].page - page, r.pages[i])
    decreases budget
  {
    var r := Walk(steps, budget, page, cursor);
    WalkPageCount(steps, budget, page, cursor);
    var saved := SavedPage(steps[0], page);
    if !Continues(steps[0]) {
      WalkEnds(steps, budget, page, cursor);
      assert r.pages[i] == PageOf(steps[0], page);
      assert SavedAtCall(steps, 0, r.pages[i]);
    } else {
      var next := Advance(steps[0], cursor);
      var rest := Walk(steps[1..], budget - 1, page + 1, next);
      WalkContinues(steps, budget, page, cursor);
      if i < |saved| {
        assert r.pages[i] == PageOf(steps[0], page);
        assert SavedAtCall(steps, 0, r.pages[i]);
      } else {
        var j := i - |saved|;
        assert r.pages[i] == rest.pages[j];
        WalkPageAt(steps[1..], budget - 1, page + 1, next, j);
        var k := rest.pages[j].page - (page + 1);
        assert steps[1..][k] == steps[k + 1];
        assert SavedAtCall(steps, k + 1, r.pages[i]);
      }
    }
  }

  /** The saved pages come one per call at most, each numbered by the call whose reply it holds. */
  lemma WalkPages(steps: seq<Step>, budget: nat, page: nat, cursor: Value)
    requires |steps| >= budget
    ensures var r := Walk(steps, budget, page, cursor);
      |r.pages| <= |r.cursors|
      && forall i :: 0 <= i < |r.pages| ==>
        page <= r.pages[i].page < page + |r.cursors| && SavedAtCall(steps, r.pages[i].page - page, r.pages[i])
  {
    WalkPageCount(steps, budget, page, cursor);
    var r := Walk(steps, budget, page, cursor);
    forall i | 0 <= i < |r.pages|
      ensures page <= r.pages[i].page < page + |r.cursors| && SavedAtCall(steps, r.pages[i].page - page, r.pages[i])
    {
      WalkPageAt(steps, budget, page, cursor, i);
    }
  }

  /** The saved pages are in strictly increasing page order. */
  lemma {:induction false} WalkPagesIncreasing(steps: seq<Step>, budget: nat, page: nat, cursor: Value)
    requires |steps| >= budget
    ensures Increasing(Walk(steps, budget, page, cursor).pages)
    decreases budget
  {
    if budget > 0 && Continues(steps[0]) {
      var r := Walk(steps, budget, page, cursor);
      var next := Advance(steps[0], cursor);
      var rest := Walk(steps[1..], budget - 1, page + 1, next);
      WalkContinues(steps, budget, page, cursor);
      WalkPagesIncreasing(steps[1..], budget - 1, page + 1, next);
      if Saves(steps[0]) {
        forall i, j | 0 <= i < j < |r.pages|
          ensures r.pages[i].page < r.pages[j].page
        {
          assert r.pages[j] == rest.pages[j - 1];
          WalkPageAt(steps[1..], budget - 1, page + 1, next, j - 1);
          if i > 0 {
            assert r.pages[i] == rest.pages[i - 1];
          } else {
            assert r.pages[0] == PageOf(steps[0], page);
          }
        }
      } else {
        assert r.pages == rest.pages;
      }
    } else if budget > 0 {
      WalkEnds(steps, budget, page, cursor);
    }
  }

  /** Every call whose reply was saved, before or after a crash, left a page with its number. */
  lemma {:induction false} WalkSavesEveryPage(steps: seq<Step>, budget: nat, page: nat, cursor: Value, k: nat)
    requires |steps| >= budget
    requires k < |Walk(steps, budget, page, cursor).cursors| && Saves(steps[k])
    ensures exists i :: (0 <= i < |Walk(steps, budget, page, cursor).pages|
      && Walk(steps, budget, page, cursor).pages[i].page == page + k)
    decreases budget
  {
    var r := Walk(steps, budget, page, cursor);
    if !Continues(steps[0]) {
      WalkEnds(steps, budget, page, cursor);
      if k > 0 {
        assert false;
      }
      assert r.pages[0].page == page;
    } else {
      var next := Advance(steps[0], cursor);
      WalkContinues(steps, budget, page, cursor);
      var rest := Walk(steps[1..], budget - 1, page + 1, next);
      var saved := SavedPage(steps[0], page);
      if k == 0 {
        assert r.pages[0].page == page;
      } else {
        assert steps[1..][k - 1] == steps[k];
        WalkSavesEveryPage(steps[1..], budget - 1, page + 1, next, k - 1);
        var i :| 0 <= i < |rest.pages| && rest.pages[i].page == page + 1 + (k - 1);
        assert r.pages[|saved| + i] == rest.pages[i];
      }
    }
  }

  /** When no reply was skipped, the saved pages are numbered consecutively from `page`. */
  lemma {:induction false} ConsecutiveWithoutSkips(steps: seq<Step>, budget: nat, page: nat, cursor: Value)
    requires |steps| >= budget
    requires forall k :: 0 <= k < budget ==> !steps[k].Skip?
    ensures var r := Walk(steps, budget, page, cursor);
      forall i :: 0 <= i < |r.pages| ==> r.pages[i].page == page + i
    decreases budget
  {
    if budget > 0 && Continues(steps[0]) {
      var next := Advance(steps[0], cursor);
      WalkContinues(steps, budget, page, cursor);
      assert forall k :: 0 <= k < budget - 1 ==> steps[1..][k] == steps[k + 1];
      ConsecutiveWithoutSkips(steps[1..], budget - 1, page + 1, next);
      var r := Walk(steps, budget, page, cursor);
      var rest := Walk(steps[1..], budget - 1, page + 1, next);
      assert SavedPage(steps[0], page) == [PageOf(steps[0], page)];
      forall i | 0 < i < |r.pages|
        ensures r.pages[i] == rest.pages[i - 1]
      {
      }
    } else if budget > 0 {
      WalkEnds(steps, budget, page, cursor);
    }
  }

  /** `demo_pagination`: three calls at most, the first without a cursor. */
  function DemoPagination(replies: seq<Value>): (r: Run)
    requires |replies| >= TotalPages
    ensures 1 <= |r.cursors| <= TotalPages
    ensures r.cursors[0] == Null
  {
    Walk(Steps(replies), TotalPages, 1, Null)
  }

  /** The first call binds `first = 3` and no `after`. */
  lemma FirstCallHasNoAfter(replies: seq<Value>)
    requires |replies| >= TotalPages
    ensures "after" !in Collections.Variables(PageSize, DemoPagination(replies).cursors[0])
    ensures Collections.Variables(PageSize, DemoPagination(replies).cursors[0])["first"] == Num(PageSize)
  {
  }

  /** A call after a saved page resumes with that page's `endCursor`, passed on verbatim. */
  lemma NextCallResumesAfterEndCursor(replies: seq<Value>, k: nat)
    requires |replies| >= TotalPages
    requires k + 1 < |DemoPagination(replies).cursors|
    requires StepOf(replies[k]).Save?
    ensures var vars := Collections.Variables(PageSize, DemoPagination(replies).cursors[k + 1]);
      "after" in vars && vars["after"] == StepOf(replies[k]).pageInfo.fields["endCursor"]
      && vars["first"] == Num(PageSize)
  {
    WalkCalls(Steps(replies), TotalPages, 1, Null);
    assert Continues(Steps(replies)[k]);
  }

  /** A reply with neither `error` nor `data` saves nothing and leaves the cursor for the next call. */
  lemma SkippedReplyKeepsCursor(replies: seq<Value>, k: nat)
    requires |replies| >= TotalPages
    requires k + 1 < |DemoPagination(replies).cursors|
    requires Member("error", replies[k]) == Some(false) && Member("data", replies[k]) == Some(false)
    ensures DemoPagination(replies).cursors[k + 1] == DemoPagination(replies).cursors[k]
  {
    WalkCalls(Steps(replies), TotalPages, 1, Null);
    assert Steps(replies)[k].Skip?;
  }

  /** A call whose step does not go on is the last call, and its step decides the stop. */
  lemma LastCallAt(replies: seq<Value>, k: nat)
    requires |replies| >= TotalPages
    requires k < |DemoPagination(replies).cursors|
    requires !Continues(StepOf(replies[k]))
    ensures |DemoPagination(replies).cursors| == k + 1
    ensures DemoPagination(replies).stop == StopOf(StepOf(replies[k]))
  {
    var steps := Steps(replies);
    assert !Continues(steps[k]);
    WalkCalls(steps, TotalPages, 1, Null);
    WalkStop(steps, TotalPages, 1, Null);
  }

  /** The loop makes another call only after a page that has a next page and a truthy `endCursor`. */
  lemma StopsAtLastPage(replies: seq<Value>, k: nat)
    requires |replies| >= TotalPages
    requires k < |DemoPagination(replies).cursors|
    requires StepOf(replies[k]).Save?
    requires !Truthy(Get(StepOf(replies[k]).pageInfo, "hasNextPage", Bool(false)).value)
          || !Truthy(Get(StepOf(replies[k]).pageInfo, "endCursor", Null).value)
    ensures |DemoPagination(replies).cursors| == k + 1
    ensures DemoPagination(replies).stop == NoMorePages
  {
    LastCallAt(replies, k);
  }

  /** An error payload ends the loop at once and is not saved. */
  lemma ErrorPayloadStops(replies: seq<Value>, k: nat)
    requires |replies| >= TotalPages
    requires k < |DemoPagination(replies).cursors|
    requires replies[k].Obj? && "error" in replies[k].fields
    ensures |DemoPagination(replies).cursors| == k + 1
    ensures DemoPagination(replies).stop == ErrorReported
    ensures forall i :: 0 <= i < |DemoPagination(replies).pages| ==> DemoPagination(replies).pages[i].page != k + 1
  {
    LastCallAt(replies, k);
    WalkPages(Steps(replies), TotalPages, 1, Null);
  }

  /** A reply the loop body raises on before saving ends the loop at once, with no page for that call. */
  lemma ExceptionStops(replies: seq<Value>, k: nat)
    requires |replies| >= TotalPages
    requires k < |DemoPagination(replies).cursors|
    requires StepOf(replies[k]).Crash?
    ensures |DemoPagination(replies).cursors| == k + 1
    ensures DemoPagination(replies).stop == Raised
    ensures forall i :: 0 <= i < |DemoPagination(replies).pages| ==> DemoPagination(replies).pages[i].page != k + 1
  {
    LastCallAt(replies, k);
    WalkPages(Steps(replies), TotalPages, 1, Null);
  }

  /** The number of records on a saved page, `len(page["records"])`. */
  function RecordCount(p: PageRecord): nat {
    match Len(p.records)
    case Some(n) => n
    case None => 0
  }

  /** The reported total: the sum of the saved pages' record counts. */
  function TotalRecords(pages: seq<PageRecord>): nat
    decreases |pages|
  {
    if pages == [] then 0 else RecordCount(pages[0]) + TotalRecords(pages[1..])
  }

  /** Pages of at most `limit` records each hold at most `limit` records per page in total. */
  lemma {:induction false} TotalRecordsBounded(pages: seq<PageRecord>, limit: nat)
    requires forall i :: 0 <= i < |pages| ==> RecordCount(pages[i]) <= limit
    ensures TotalRecords(pages) <= limit * |pages|
    decreases |pages|
  {
    if pages != [] {
      TotalRecordsBounded(pages[1..], limit);
      assert limit * |pages| == limit * |pages[1..]| + limit;
    }
  }

  /** Every page a reply holds has at most `PageSize` edges: the server honours `first`. */
  predicate HonoursFirst(replies: seq<Value>) {
    forall k :: 0 <= k < |replies| && HoldsPage(replies[k]) ==>
      Len(PageCollection(replies[k]).fields["edges"]).value <= PageSize
  }

  /** When the server honours `first`, the demo reports at most nine records. */
  lemma DemoRecordsBounded(replies: seq<Value>)
    requires |replies| >= TotalPages && HonoursFirst(replies)
    ensures TotalRecords(DemoPagination(replies).pages) <= PageSize * TotalPages
  {
    var steps := Steps(replies);
    var r := DemoPagination(replies);
    WalkPages(steps, TotalPages, 1, Null);
    forall i | 0 <= i < |r.pages|
      ensures RecordCount(r.pages[i]) <= PageSize
    {
      var k := r.pages[i].page - 1;
      assert SavedAtCall(steps, k, r.pages[i]);
      assert steps[k] == StepOf(replies[k]);
    }
    TotalRecordsBounded(r.pages, PageSize);
    assert PageSize * |r.pages| <= PageSize * TotalPages;
  }

  /** An edge of the scenario below. */
  function Edge(id: int, cursor: string): Value {
    Obj(map["node" := Obj(map["id" := Num(id)]), "cursor" := Str(cursor)])
  }

  /** The three edges of the first page of the scenario below. */
  function FirstEdges(): Value {
    Arr([Edge(1, "c1"), Edge(2, "c2"), Edge(3, "c3")])
  }

  /** Its `pageInfo`: more to come, ending at cursor `c3`. */
  function FirstInfo(): Value {
    Obj(map["hasNextPage" := Bool(true), "endCursor" := Str("c3")])
  }

  /** A first page of three records that says there is more, ending at cursor `c3`. */
  function FirstPage(): Value {
    Obj(map["data" := Obj(map["newsCollection" := Obj(map["edges" := FirstEdges(), "pageInfo" := FirstInfo()])])])
  }

  /** The loop body saves that page and continues with its `endCursor`. */
  lemma FirstPageSaved()
    ensures StepOf(FirstPage()) == Save(FirstEdges(), FirstInfo(), Some(Str("c3")))
  {
    var reply := FirstPage();
    assert Naming.RootField(DemoCollection) == "newsCollection";
    var collection := Obj(map["edges" := FirstEdges(), "pageInfo" := FirstInfo()]);
    assert Index(reply, "data") == Some(Obj(map["newsCollection" := collection]));
    assert Index(Obj(map["newsCollection" := collection]), "newsCollection") == Some(collection);
    var items := [Edge(1, "c1"), Edge(2, "c2"), Edge(3, "c3")];
    assert RecordIdsReadable(FirstEdges()) by {
      forall k | 0 <= k < |items|
        ensures Index(items[k], "node").Some? && Index(Index(items[k], "node").value, "id").Some?
      {
      }
    }
    assert Get(FirstInfo(), "hasNextPage", Bool(false)) == Some(Bool(true));
    assert Get(FirstInfo(), "endCursor", Null) == Some(Str("c3"));
  }

  /** After that page, the second call is made with `after = "c3"` and `first = 3`. */
  lemma SecondCallAfterC3(replies: seq<Value>)
    requires |replies| >= TotalPages && replies[0] == FirstPage()
    ensures |DemoPagination(replies).cursors| >= 2
    ensures DemoPagination(replies).cursors[1] == Str("c3")
  {
    FirstPageSaved();
    assert Steps(replies)[0] == Save(FirstEdges(), FirstInfo(), Some(Str("c3")));
    WalkContinues(Steps(replies), TotalPages, 1, Null);
  }
}
