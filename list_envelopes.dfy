/** The envelope list command: the workspace filter, the first-page reload
    that every filter change or refresh triggers (with its cancellation of
    earlier runs), "load more" pagination, and the texts it renders. */
module ListEnvelopes {
  import opened Wrappers
  import opened Strings
  import opened Types
  import Subnoto
  import UploadDocument

  /** Timestamps below this are read as seconds. */
  const SecondsCutoff: int := 1_000_000_000_000

  /** `toDate`: the millisecond reading of an API timestamp. */
  function ToDate(timestamp: int): (ms: int)
    ensures timestamp < SecondsCutoff ==> ms == timestamp * 1000
    ensures timestamp >= SecondsCutoff ==> ms == timestamp
    ensures timestamp >= 1_000_000_000 ==> ms >= SecondsCutoff
  {
    if timestamp < SecondsCutoff then timestamp * 1000 else timestamp
  }

  /** An instant from 2001 on reads the same whether the API sends it in
      seconds or in milliseconds. */
  lemma SecondsAndMillisecondsAgree(seconds: int)
    requires 1_000_000_000 <= seconds < SecondsCutoff
    ensures ToDate(seconds) == ToDate(seconds * 1000)
  {
  }

  /** Normalising a normalised timestamp changes nothing. */
  lemma ToDateIdempotent(timestamp: int)
    requires timestamp >= 1_000_000_000
    ensures ToDate(ToDate(timestamp)) == ToDate(timestamp)
  {
  }

  /** The "All" entry (the empty uuid) means no filter. */
  function WorkspaceFilter(selected: string): (f: Option<string>)
    ensures f.None? <==> selected == ""
    ensures f.Some? ==> f.value == selected
  {
    if selected == "" then None else Some(selected)
  }

  /** The filter reaches the request body unchanged, whatever the page. */
  lemma FilterReachesBody(selected: string, page: int)
    ensures Subnoto.EnvelopeListBodyFor(WorkspaceFilter(selected), Some(page)).workspaceUuid == WorkspaceFilter(selected)
    ensures Subnoto.EnvelopeListBodyFor(WorkspaceFilter(selected), Some(page)).page == page
  {
  }

  /** Index of the first workspace with the given uuid, or -1. */
  function FirstWithUuid(workspaces: seq<Workspace>, uuid: string): (i: int)
    ensures -1 <= i < |workspaces|
    ensures i >= 0 ==> workspaces[i].uuid == uuid
    ensures forall j :: 0 <= j < |workspaces| && (i < 0 || j < i) ==> workspaces[j].uuid != uuid
    decreases |workspaces|
  {
    if workspaces == [] then -1
    else if workspaces[0].uuid == uuid then 0
    else
      var k := FirstWithUuid(workspaces[1..], uuid);
      if k < 0 then -1 else k + 1
  }

  /** The first listed workspace with the selected uuid, if any. */
  function FindWorkspace(workspaces: seq<Workspace>, uuid: string): (r: Option<Workspace>)
    ensures r.Some? ==> r.value in workspaces && r.value.uuid == uuid
    ensures r.None? <==> forall w :: w in workspaces ==> w.uuid != uuid
    ensures r.Some? ==> r.value == workspaces[FirstWithUuid(workspaces, uuid)]
  {
    var i := FirstWithUuid(workspaces, uuid);
    if i < 0 then None else Some(workspaces[i])
  }

  function EmptyViewTitle(error: Option<string>): (t: string)
    ensures t == (if error.Some? then "Failed to load envelopes" else "No envelopes")
  {
    if error.Some? then "Failed to load envelopes" else "No envelopes"
  }

  /** The empty view's description: the error message, the "All" text, the
      selected workspace's name, or nothing for a uuid not (yet) listed. */
  function EmptyViewDescription(error: Option<string>, selected: string, workspaces: seq<Workspace>): (d: string)
    ensures error.Some? ==> d == error.value
    ensures error.None? && selected == "" ==> d == "No envelopes across your workspaces."
    ensures error.None? && selected != "" && FindWorkspace(workspaces, selected).Some? ==>
      d == "No envelopes in \"" + FindWorkspace(workspaces, selected).value.name + "\" yet."
    ensures error.None? && selected != "" && (forall w :: w in workspaces ==> w.uuid != selected) ==> d == ""
  {
    match error
    case Some(message) => message
    case None =>
      if selected == "" then "No envelopes across your workspaces."
      else
        match FindWorkspace(workspaces, selected)
        case Some(w) => "No envelopes in \"" + w.name + "\" yet."
        case None => ""
  }

  /** An item's title: the envelope's own, or "Untitled" when it is empty. */
  function ItemTitle(e: Envelope): (t: string)
    ensures t != []
    ensures e.title != [] ==> t == e.title
    ensures e.title == [] ==> t == "Untitled"
  {
    if e.title == [] then "Untitled" else e.title
  }

  /** The search keywords of an item: its status, then its tags. */
  function Keywords(e: Envelope): (k: seq<string>)
    ensures |k| == |e.tags| + 1 && k[0] == e.status && k[1..] == e.tags
  {
    [e.status] + e.tags
  }

  /** The "x/y signatures" accessory. */
  function SignaturesText(m: Metrics): (t: string)
    ensures EndsWith(t, " signatures")
    ensures t == NatToString(m.signatureCount) + (['/'] + NatToString(m.signatureRequiredCount) + " signatures")
  {
    var t := NatToString(m.signatureCount) + "/" + NatToString(m.signatureRequiredCount) + " signatures";
    assert t[|t| - 11..] == " signatures";
    t
  }

  /** The signature line tells both counts: different metrics read differently. */
  lemma SignaturesTextInjective(m1: Metrics, m2: Metrics)
    requires SignaturesText(m1) == SignaturesText(m2)
    ensures m1.signatureCount == m2.signatureCount
    ensures m1.signatureRequiredCount == m2.signatureRequiredCount
  {
    DigitPairUnique(NatToString(m1.signatureCount), NatToString(m1.signatureRequiredCount),
                    NatToString(m2.signatureCount), NatToString(m2.signatureRequiredCount),
                    '/', " signatures");
    NatToStringInjective(m1.signatureCount, m2.signatureCount);
    NatToStringInjective(m1.signatureRequiredCount, m2.signatureRequiredCount);
  }

  /** The item's "Open in Subnoto" link. */
  function ItemUrl(e: Envelope): (url: string)
    ensures url == UploadDocument.EditUrl(e.workspaceUuid, e.uuid)
  {
    UploadDocument.EditUrl(e.workspaceUuid, e.uuid)
  }

  /** An item links to the same page the upload form opens for that
      envelope, so distinct envelopes of `/`-free workspaces link apart. */
  lemma ItemUrlIsEditUrl(e: Envelope, f: Envelope)
    ensures ItemUrl(e) == UploadDocument.EditUrl(e.workspaceUuid, e.uuid)
    ensures '/' !in e.workspaceUuid && '/' !in f.workspaceUuid && ItemUrl(e) == ItemUrl(f) ==>
      e.workspaceUuid == f.workspaceUuid && e.uuid == f.uuid
  {
    if '/' !in e.workspaceUuid && '/' !in f.workspaceUuid && ItemUrl(e) == ItemUrl(f) {
      UploadDocument.EditUrlInjective(e.workspaceUuid, e.uuid, f.workspaceUuid, f.uuid);
    }
  }

  /** The component's state. `epoch` stands for the `cancelled` flag of the
      reload effect: each run of the effect gets the next epoch, and the
      runs whose epoch is not the current one have been cleaned up. */
  datatype View = View(
    workspaces: seq<Workspace>,
    workspacesLoading: bool,
    selectedWorkspaceUuid: string,
    envelopes: seq<Envelope>,
    envelopesLoading: bool,
    envelopesError: Option<string>,
    page: int,
    hasMore: bool,
    loadingMore: bool,
    epoch: nat)

  /** The initial `useState` values, before any effect has run. */
  function InitialView(): (v: View)
    ensures IsLoading(v) && ShowsOnlySelected(v)
    ensures v.workspaces == [] && v.workspacesLoading && !v.envelopesLoading
    ensures v.selectedWorkspaceUuid == "" && v.envelopes == [] && v.envelopesError == None
    ensures v.page == 1 && !v.hasMore && !v.loadingMore
  {
    View([], true, "", [], false, None, 1, false, false, 0)
  }

  function IsLoading(v: View): (b: bool)
    ensures b <==> v.workspacesLoading || v.envelopesLoading
  {
    v.workspacesLoading || v.envelopesLoading
  }

  /** A request in flight, tagged with the epoch of the view that issued it. */
  datatype Request = Request(epoch: nat, body: Subnoto.EnvelopeListBody)

  /** The synchronous part of the reload effect: a new epoch cancels every
      earlier run, and the list starts over from page 1. */
  function ReloadView(v: View): (r: View)
    ensures r.epoch == v.epoch + 1
    ensures r.envelopes == [] && !r.hasMore && r.page == 1 && r.envelopesLoading && r.envelopesError == None
    ensures r == v.(envelopes := [], hasMore := false, page := 1, envelopesLoading := true, envelopesError := None, epoch := r.epoch)
  {
    v.(envelopesLoading := true, envelopesError := None, page := 1, envelopes := [], hasMore := false, epoch := v.epoch + 1)
  }

  /** The first-page request the current run of the reload effect sends. */
  function FirstPageRequest(v: View): (q: Request)
    ensures q.epoch == v.epoch && q.body.page == 1
    ensures q.body.workspaceUuid == WorkspaceFilter(v.selectedWorkspaceUuid)
  {
    Request(v.epoch, Subnoto.EnvelopeListBodyFor(WorkspaceFilter(v.selectedWorkspaceUuid), Some(1)))
  }

  /** The dropdown's `onChange`: the effect depends on the filter only, so
      the list reloads exactly when the selection changes. */
  function SelectView(v: View, uuid: string): (r: View)
    ensures r.selectedWorkspaceUuid == uuid
    ensures r.epoch != v.epoch <==> uuid != v.selectedWorkspaceUuid
    ensures uuid != v.selectedWorkspaceUuid ==> r == ReloadView(v.(selectedWorkspaceUuid := uuid))
    ensures uuid == v.selectedWorkspaceUuid ==> r == v
  {
    var selected := v.(selectedWorkspaceUuid := uuid);
    if WorkspaceFilter(uuid) != WorkspaceFilter(v.selectedWorkspaceUuid) then ReloadView(selected) else selected
  }

  /** The `then`/`catch` of a first-page request issued in `epoch`: ignored
      once that run is cancelled; otherwise the page replaces the list, or
      the error is recorded and the list emptied. */
  function SettleFirstPage(v: View, epoch: nat, result: Result<seq<Envelope>, Thrown>): (r: View)
    ensures epoch != v.epoch ==> r == v
    ensures epoch == v.epoch && result.Success? ==>
      r.envelopes == result.value && r.envelopesError == v.envelopesError &&
      (r.hasMore <==> |result.value| == Subnoto.EnvelopesPageSize)
    ensures epoch == v.epoch && result.Failure? ==>
      r.envelopes == [] && r.envelopesError == Some(AsErrorMessage(result.error)) && r.hasMore == v.hasMore
    ensures r == v.(envelopes := r.envelopes, envelopesError := r.envelopesError, hasMore := r.hasMore)
  {
    if epoch != v.epoch then v
    else
      match result
      case Success(data) => v.(envelopes := data, hasMore := |data| == Subnoto.EnvelopesPageSize)
      case Failure(t) => v.(envelopesError := Some(AsErrorMessage(t)), envelopes := [])
  }

  /** The `finally` of a first-page request issued in `epoch`. */
  function FinishFirstPage(v: View, epoch: nat): (r: View)
    ensures epoch == v.epoch ==> !r.envelopesLoading
    ensures r == v.(envelopesLoading := r.envelopesLoading)
    ensures epoch != v.epoch ==> r == v
  {
    if epoch == v.epoch then v.(envelopesLoading := false) else v
  }

  /** The request `onLoadMore` sends: the next page under the current filter. */
  function LoadMoreRequest(v: View): (q: Request)
    ensures q.epoch == v.epoch && q.body.page == v.page + 1
    ensures q.body.workspaceUuid == WorkspaceFilter(v.selectedWorkspaceUuid)
  {
    Request(v.epoch, Subnoto.EnvelopeListBodyFor(WorkspaceFilter(v.selectedWorkspaceUuid), Some(v.page + 1)))
  }

  /** The synchronous part of `onLoadMore`: nothing while a load-more is
      pending, otherwise it marks one pending. */
  function StartLoadMore(v: View): (r: View)
    ensures v.loadingMore ==> r == v
    ensures r.loadingMore && r == v.(loadingMore := true)
  {
    if v.loadingMore then v else v.(loadingMore := true)
  }

  /** The `then` of a load-more request as the command has it: the page is
      appended whatever has happened since it was sent; a failure leaves the
      state alone. */
  function SettleLoadMoreAsWritten(v: View, request: Request, result: Result<seq<Envelope>, Thrown>): (r: View)
    ensures result.Failure? ==> r == v
    ensures result.Success? ==>
      r.envelopes == v.envelopes + result.value && r.page == request.body.page &&
      (r.hasMore <==> |result.value| == Subnoto.EnvelopesPageSize)
    ensures r == v.(envelopes := r.envelopes, page := r.page, hasMore := r.hasMore)
  {
    match result
    case Success(data) => v.(envelopes := v.envelopes + data, hasMore := |data| == Subnoto.EnvelopesPageSize, page := request.body.page)
    case Failure(_) => v
  }

  /** The `then` of a load-more request with the cancellation check the
      first-page request has: a page from a cancelled run is dropped. */
  function SettleLoadMore(v: View, request: Request, result: Result<seq<Envelope>, Thrown>): (r: View)
    ensures request.epoch != v.epoch ==> r == v
    ensures request.epoch == v.epoch ==> r == SettleLoadMoreAsWritten(v, request, result)
    ensures r.envelopes[..|v.envelopes|] == v.envelopes
  {
    if request.epoch != v.epoch then v else SettleLoadMoreAsWritten(v, request, result)
  }

  /** The `finally` of a load-more request. */
  function FinishLoadMore(v: View): (r: View)
    ensures !r.loadingMore && r == v.(loadingMore := false)
  {
    v.(loadingMore := false)
  }

  /** The workspace load on mount: a list replaces the (empty) list, a
      failure only shows a toast; loading ends either way. */
  function SettleWorkspaces(v: View, result: Result<seq<Workspace>, Thrown>): (r: View)
    ensures !r.workspacesLoading
    ensures r.workspaces == (if result.Success? then result.value else v.workspaces)
    ensures r == v.(workspaces := r.workspaces, workspacesLoading := false)
  {
    var loaded := if result.Success? then v.(workspaces := result.value) else v;
    loaded.(workspacesLoading := false)
  }

  /** What every shown envelope must satisfy: with a workspace selected, it
      belongs to that workspace. */
  predicate ShowsOnlySelected(v: View)
  {
    v.selectedWorkspaceUuid != "" ==> forall e :: e in v.envelopes ==> e.workspaceUuid == v.selectedWorkspaceUuid
  }

  /** A server that answers a filtered request only with envelopes of that
      workspace. */
  predicate Answers(request: Request, result: Result<seq<Envelope>, Thrown>)
  {
    result.Success? && request.body.workspaceUuid.Some? ==>
      forall e :: e in result.value ==> e.workspaceUuid == request.body.workspaceUuid.value
  }

  /** An out-of-date load-more page. From the mounted view the user selects
      workspace A, whose full first page arrives, and asks for more; then
      switches to B, whose first page is shown. As written, A's second page
      is appended to B's list and the page counter jumps to 2. */
  lemma StaleNextPageShownAsWritten()
    ensures var a := Envelope("a2", "A contract", "draft", [], "A", 0, Metrics(0, 1));
            var b := Envelope("b1", "B contract", "draft", [], "B", 0, Metrics(0, 1));
            var pageA := seq(Subnoto.EnvelopesPageSize, _ => Envelope("a1", "A form", "draft", [], "A", 0, Metrics(0, 1)));
            var selectedA := SelectView(ReloadView(InitialView()), "A");
            var v0 := FinishFirstPage(SettleFirstPage(selectedA, selectedA.epoch, Success(pageA)), selectedA.epoch);
            var request := LoadMoreRequest(v0);
            var v2 := SelectView(StartLoadMore(v0), "B");
            var v3 := FinishFirstPage(SettleFirstPage(v2, v2.epoch, Success([b])), v2.epoch);
            var v4 := SettleLoadMoreAsWritten(v3, request, Success([a]));
            v0.hasMore && ShowsOnlySelected(v0) && request.body.page == 2 &&
            Answers(request, Success([a])) && ShowsOnlySelected(v3) && v3.envelopes == [b] &&
            v4.selectedWorkspaceUuid == "B" && v4.envelopes == [b, a] && v4.page == 2 &&
            !ShowsOnlySelected(v4) &&
            SettleLoadMore(v3, request, Success([a])) == v3
  {
    var a := Envelope("a2", "A contract", "draft", [], "A", 0, Metrics(0, 1));
    var b := Envelope("b1", "B contract", "draft", [], "B", 0, Metrics(0, 1));
    var pageA := seq(Subnoto.EnvelopesPageSize, _ => Envelope("a1", "A form", "draft", [], "A", 0, Metrics(0, 1)));
    var selectedA := SelectView(ReloadView(InitialView()), "A");
    var v0 := FinishFirstPage(SettleFirstPage(selectedA, selectedA.epoch, Success(pageA)), selectedA.epoch);
    var request := LoadMoreRequest(v0);
    var v2 := SelectView(StartLoadMore(v0), "B");
    var v3 := FinishFirstPage(SettleFirstPage(v2, v2.epoch, Success([b])), v2.epoch);
    var v4 := SettleLoadMoreAsWritten(v3, request, Success([a]));
    assert v4.envelopes == [b, a];
    assert a in v4.envelopes;
  }

  /** The other arrival order: A's late second page lands before B's first
      page. B's page then replaces the list but not the page counter, so
      B's next load-more asks for page 3 and page 2 of B is never shown. */
  lemma StaleNextPageSkipsPageAsWritten()
    ensures var a := Envelope("a2", "A contract", "draft", [], "A", 0, Metrics(0, 1));
            var b := Envelope("b1", "B contract", "draft", [], "B", 0, Metrics(0, 1));
            var pageA := seq(Subnoto.EnvelopesPageSize, _ => Envelope("a1", "A form", "draft", [], "A", 0, Metrics(0, 1)));
            var pageB := seq(Subnoto.EnvelopesPageSize, _ => b);
            var selectedA := SelectView(ReloadView(InitialView()), "A");
            var v0 := FinishFirstPage(SettleFirstPage(selectedA, selectedA.epoch, Success(pageA)), selectedA.epoch);
            var request := LoadMoreRequest(v0);
            var v2 := SelectView(StartLoadMore(v0), "B");
            var v3 := FinishLoadMore(SettleLoadMoreAsWritten(v2, request, Success([a])));
            var v4 := FinishFirstPage(SettleFirstPage(v3, v2.epoch, Success(pageB)), v2.epoch);
            v4.selectedWorkspaceUuid == "B" && v4.envelopes == pageB && v4.hasMore &&
            v4.page == 2 && LoadMoreRequest(v4).body.page == 3 &&
            FinishFirstPage(SettleFirstPage(FinishLoadMore(SettleLoadMore(v2, request, Success([a]))), v2.epoch, Success(pageB)), v2.epoch).page == 1
  {
  }

  /** A request still to be answered, and what it was for. */
  datatype Pending = FirstPage(request: Request) | NextPage(request: Request)

  /** The view together with the requests in flight. */
  datatype World = World(view: View, inflight: seq<Pending>)

  /** What can happen next: a user action, or the answer to one of the
      requests in flight (in any order). */
  datatype Event =
    | SelectWorkspace(uuid: string)
    | Refresh
    | LoadMore
    | Deliver(index: nat, result: Result<seq<Envelope>, Thrown>)

  function Without<T>(s: seq<T>, i: nat): (r: seq<T>)
    requires i < |s|
    ensures |r| == |s| - 1
    ensures forall x :: x in r ==> x in s
    ensures multiset(r) + multiset{s[i]} == multiset(s)
  {
    assert s == s[..i] + [s[i]] + s[i + 1..];
    s[..i] + s[i + 1..]
  }

  /** The mounted command: the reload effect's first run, with its request. */
  function Mounted(): World
  {
    var v := ReloadView(InitialView());
    World(v, [FirstPage(FirstPageRequest(v))])
  }

  /** One event: a selection or refresh opens a new epoch with one more
      request, a load-more adds at most one request, and an answer only
      retires its request. */
  function Step(w: World, e: Event): (r: World)
    ensures w.view.epoch <= r.view.epoch <= w.view.epoch + 1
    ensures |r.inflight| <= |w.inflight| + 1
    ensures r.view.epoch != w.view.epoch ==>
      r.view.envelopes == [] && r.view.envelopesLoading && r.inflight == w.inflight + [FirstPage(FirstPageRequest(r.view))]
    ensures e.Refresh? ==> r.view.epoch == w.view.epoch + 1
    ensures e.Deliver? ==>
      && r.view.epoch == w.view.epoch && r.view.selectedWorkspaceUuid == w.view.selectedWorkspaceUuid
      && (forall p :: p in r.inflight ==> p in w.inflight)
      && (e.index < |w.inflight| ==> |r.inflight| == |w.inflight| - 1)
    ensures e.Deliver? && e.index < |w.inflight| ==>
      multiset(r.inflight) + multiset{w.inflight[e.index]} == multiset(w.inflight)
    ensures e.Deliver? && e.index >= |w.inflight| ==> r == w
  {
    match e
    case SelectWorkspace(uuid) =>
      var v := SelectView(w.view, uuid);
      if v.epoch == w.view.epoch then World(v, w.inflight)
      else World(v, w.inflight + [FirstPage(FirstPageRequest(v))])
    case Refresh =>
      var v := ReloadView(w.view);
      World(v, w.inflight + [FirstPage(FirstPageRequest(v))])
    case LoadMore =>
      if w.view.loadingMore then w
      else World(StartLoadMore(w.view), w.inflight + [NextPage(LoadMoreRequest(w.view))])
    case Deliver(i, result) =>
      if i >= |w.inflight| then w
      else
        match w.inflight[i]
        case FirstPage(q) => World(FinishFirstPage(SettleFirstPage(w.view, q.epoch, result), q.epoch), Without(w.inflight, i))
        case NextPage(q) => World(FinishLoadMore(SettleLoadMore(w.view, q, result)), Without(w.inflight, i))
  }

  function Run(w: World, events: seq<Event>): World
    decreases |events|
  {
    if events == [] then w else Run(Step(w, events[0]), events[1..])
  }

  /** The server answers every delivered request with its own workspace's envelopes. */
  predicate HonestEvent(w: World, e: Event)
  {
    e.Deliver? && e.index < |w.inflight| ==> Answers(w.inflight[e.index].request, e.result)
  }

  predicate HonestRun(w: World, events: seq<Event>)
    decreases |events|
  {
    events == [] || (HonestEvent(w, events[0]) && HonestRun(Step(w, events[0]), events[1..]))
  }

  /** No request is from the future, and every request of the current epoch
      asks for the current filter. */
  predicate RequestsCurrent(w: World)
  {
    forall p :: p in w.inflight ==>
      p.request.epoch <= w.view.epoch &&
      (p.request.epoch == w.view.epoch ==> p.request.body.workspaceUuid == WorkspaceFilter(w.view.selectedWorkspaceUuid))
  }

  predicate Consistent(w: World)
  {
    ShowsOnlySelected(w.view) && RequestsCurrent(w)
  }

  lemma MountedConsistent()
    ensures Consistent(Mounted())
    ensures Mounted().view.envelopes == [] && Mounted().view.envelopesLoading
    ensures |Mounted().inflight| == 1 && Mounted().inflight[0].FirstPage?
    ensures Mounted().inflight[0].request.body.workspaceUuid == WorkspaceFilter(Mounted().view.selectedWorkspaceUuid)
  {
  }

  lemma DeliverKeepsConsistent(w: World, i: nat, result: Result<seq<Envelope>, Thrown>)
    requires Consistent(w) && i < |w.inflight| && Answers(w.inflight[i].request, result)
    ensures Consistent(Step(w, Deliver(i, result)))
  {
    var q := w.inflight[i].request;
    assert q.epoch == w.view.epoch ==> q.body.workspaceUuid == WorkspaceFilter(w.view.selectedWorkspaceUuid);
  }

  lemma ReloadKeepsConsistent(w: World, e: Event)
    requires Consistent(w) && (e.SelectWorkspace? || e.Refresh?)
    ensures Consistent(Step(w, e))
  {
  }

  lemma LoadMoreKeepsConsistent(w: World)
    requires Consistent(w)
    ensures Consistent(Step(w, LoadMore))
  {
  }

  lemma StepKeepsConsistent(w: World, e: Event)
    requires Consistent(w) && HonestEvent(w, e)
    ensures Consistent(Step(w, e))
  {
    match e
    case Deliver(i, result) =>
      if i < |w.inflight| {
        DeliverKeepsConsistent(w, i, result);
      }
    case LoadMore =>
      LoadMoreKeepsConsistent(w);
    case _ =>
      ReloadKeepsConsistent(w, e);
  }

  lemma {:induction false} RunKeepsConsistent(w: World, events: seq<Event>)
    requires Consistent(w) && HonestRun(w, events)
    ensures Consistent(Run(w, events))
    decreases |events|
  {
    if events != [] {
      StepKeepsConsistent(w, events[0]);
      RunKeepsConsistent(Step(w, events[0]), events[1..]);
    }
  }

  /** Whatever the user does and in whatever order the answers arrive, a
      selected workspace's list shows only that workspace's envelopes. */
  lemma ListShowsSelectedWorkspace(events: seq<Event>)
    requires HonestRun(Mounted(), events)
    ensures ShowsOnlySelected(Run(Mounted(), events).view)
  {
    MountedConsistent();
    RunKeepsConsistent(Mounted(), events);
  }

  /** The answer to a first-page request of the current run. */
  predicate DeliversCurrentFirstPage(w: World, e: Event)
  {
    e.Deliver? && e.index < |w.inflight| && w.inflight[e.index].FirstPage? &&
    w.inflight[e.index].request.epoch == w.view.epoch
  }

  /** Once envelopes are loading, the spinner stays on through every user
      action and every other answer, stale first pages included: only the
      current run's first page turns envelope loading off. */
  lemma LoadingUntilCurrentFirstPage(w: World, e: Event)
    requires w.view.envelopesLoading && !DeliversCurrentFirstPage(w, e)
    ensures Step(w, e).view.envelopesLoading && IsLoading(Step(w, e).view)
  {
  }

  /** The current run's first page ends envelope loading, leaving the
      spinner to the workspace load alone. */
  lemma CurrentFirstPageEndsLoading(w: World, e: Event)
    requires DeliversCurrentFirstPage(w, e)
    ensures !Step(w, e).view.envelopesLoading
    ensures IsLoading(Step(w, e).view) <==> w.view.workspacesLoading
  {
  }

  /** A reload shows the spinner and the neutral "No envelopes" view. */
  lemma ReloadShowsLoading(v: View)
    ensures IsLoading(ReloadView(v))
    ensures EmptyViewTitle(ReloadView(v).envelopesError) == "No envelopes"
  {
  }

  /** A failed first page of the current run shows the failure view with
      the thrown value's message, over an emptied list. */
  lemma FailedFirstPageShowsError(v: View, t: Thrown)
    ensures var r := SettleFirstPage(v, v.epoch, Failure(t));
      && r.envelopes == []
      && EmptyViewTitle(r.envelopesError) == "Failed to load envelopes"
      && EmptyViewDescription(r.envelopesError, r.selectedWorkspaceUuid, r.workspaces) == AsErrorMessage(t)
  {
  }

  /** The command as a component whose fields the handlers update. */
  class EnvelopeList {
    var workspaces: seq<Workspace>
    var workspacesLoading: bool
    var selectedWorkspaceUuid: string
    var envelopes: seq<Envelope>
    var envelopesLoading: bool
    var envelopesError: Option<string>
    var page: int
    var hasMore: bool
    var loadingMore: bool
    var epoch: nat

    function State(): View
      reads this
    {
      View(workspaces, workspacesLoading, selectedWorkspaceUuid, envelopes, envelopesLoading,
           envelopesError, page, hasMore, loadingMore, epoch)
    }

    constructor ()
      ensures State() == InitialView()
    {
      workspaces := [];
      workspacesLoading := true;
      selectedWorkspaceUuid := "";
      envelopes := [];
      envelopesLoading := false;
      envelopesError := None;
      page := 1;
      hasMore := false;
      loadingMore := false;
      epoch := 0;
    }

    /** A run of the reload effect; returns the first-page request it sends. */
    method Reload() returns (request: Request)
      modifies this
      ensures State() == ReloadView(old(State()))
      ensures request == FirstPageRequest(State())
    {
      epoch := epoch + 1;
      envelopesLoading := true;
      envelopesError := None;
      page := 1;
      envelopes := [];
      hasMore := false;
      request := Request(epoch, Subnoto.EnvelopeListBodyFor(WorkspaceFilter(selectedWorkspaceUuid), Some(1)));
    }

    /** The dropdown's `onChange`, with the reload it triggers, if any. */
    method SelectWorkspace(uuid: string) returns (request: Option<Request>)
      modifies this
      ensures State() == SelectView(old(State()), uuid)
      ensures request.Some? <==> uuid != old(selectedWorkspaceUuid)
      ensures request.Some? ==> request.value == FirstPageRequest(State())
    {
      var previous := WorkspaceFilter(selectedWorkspaceUuid);
      selectedWorkspaceUuid := uuid;
      if WorkspaceFilter(uuid) != previous {
        var q := Reload();
        request := Some(q);
      } else {
        request := None;
      }
    }

    method FirstPageSettled(requestEpoch: nat, result: Result<seq<Envelope>, Thrown>)
      modifies this
      ensures State() == SettleFirstPage(old(State()), requestEpoch, result)
    {
      if requestEpoch == epoch {
        match result {
          case Success(data) =>
            envelopes := data;
            hasMore := |data| == Subnoto.EnvelopesPageSize;
          case Failure(t) =>
            envelopesError := Some(AsErrorMessage(t));
            envelopes := [];
        }
      }
    }

    method FirstPageFinished(requestEpoch: nat)
      modifies this
      ensures State() == FinishFirstPage(old(State()), requestEpoch)
    {
      if requestEpoch == epoch {
        envelopesLoading := false;
      }
    }

    /** `onLoadMore`; returns the request it sends, if any. */
    method LoadMore() returns (request: Option<Request>)
      modifies this
      ensures State() == StartLoadMore(old(State()))
      ensures request.Some? <==> !old(loadingMore)
      ensures request.Some? ==> request.value == LoadMoreRequest(old(State()))
    {
      if loadingMore {
        return None;
      }
      var nextPage := page + 1;
      loadingMore := true;
      request := Some(Request(epoch, Subnoto.EnvelopeListBodyFor(WorkspaceFilter(selectedWorkspaceUuid), Some(nextPage))));
    }

    method LoadMoreSettled(request: Request, result: Result<seq<Envelope>, Thrown>)
      modifies this
      ensures State() == SettleLoadMore(old(State()), request, result)
    {
      if request.epoch == epoch && result.Success? {
        envelopes := envelopes + result.value;
        hasMore := |result.value| == Subnoto.EnvelopesPageSize;
        page := request.body.page;
      }
    }

    method LoadMoreFinished()
      modifies this
      ensures State() == FinishLoadMore(old(State()))
    {
      loadingMore := false;
    }

    method WorkspacesSettled(result: Result<seq<Workspace>, Thrown>)
      modifies this
      ensures State() == SettleWorkspaces(old(State()), result)
    {
      if result.Success? {
        workspaces := result.value;
      }
      workspacesLoading := false;
    }
  }
}
