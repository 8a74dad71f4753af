/** The API layer: the client configuration, the two list calls' request
    bodies and the normalisation of their responses. The vendor client and
    its transport are not modelled: a call either rejects or resolves with the
    `{ data, error }` pair it returned. */
module Subnoto {
  import opened Wrappers
  import opened Types

  const ApiBaseUrl: string := "https://enclave.subnoto.com"

  /** Number of envelopes the server returns on a full page. */
  const EnvelopesPageSize: nat := 50

  const WorkspacesFetchFailed: string := "Failed to fetch workspaces. Please check your API credentials."
  const EnvelopesFetchFailed: string := "Failed to fetch envelopes. Please check your API credentials."

  /** The options the vendor client is constructed with. */
  datatype ClientConfig = ClientConfig(apiBaseUrl: string, accessKey: string, secretKey: string)

  function ClientConfigFor(p: Preferences): (c: ClientConfig)
    ensures c.apiBaseUrl == ApiBaseUrl
    ensures c.accessKey == p.apiAccessKey && c.secretKey == p.apiSecretKey
  {
    ClientConfig(ApiBaseUrl, p.apiAccessKey, p.apiSecretKey)
  }

  /** The body of `POST /public/envelope/list`; `None` is an absent `workspaceUuid` key. */
  datatype EnvelopeListBody = EnvelopeListBody(workspaceUuid: Option<string>, page: int)

  /** Body construction of `listEnvelopes`; an omitted `page` argument is `None`. */
  function EnvelopeListBodyFor(workspaceUuid: Option<string>, page: Option<int>): (b: EnvelopeListBody)
    ensures b.page == (if page.Some? then page.value else 1)
    ensures b.workspaceUuid.None? <==> workspaceUuid == None || workspaceUuid == Some("")
    ensures b.workspaceUuid.Some? ==> b.workspaceUuid == workspaceUuid
  {
    var p := if page.Some? then page.value else 1;
    if workspaceUuid.None? || workspaceUuid.value == "" then EnvelopeListBody(None, p)
    else EnvelopeListBody(workspaceUuid, p)
  }

  /** `data` of a list response: an object whose list field (`workspaces` or
      `envelopes`) may be missing. */
  datatype ListData<T> = ListData(items: Option<seq<T>>)

  /** What `client.POST` resolves with; `error` is `Some` when it is truthy. */
  datatype ListResponse<T> = ListResponse(data: Option<ListData<T>>, error: Option<string>)

  /** The outcome of the whole vendor round trip, client construction included. */
  datatype Call<R> = Rejected(reason: Thrown) | Resolved(response: R)

  /** The list the server sent, or [] when `data` or its list is missing. */
  function ServerItems<T>(resp: ListResponse<T>): seq<T>
  {
    if resp.data.Some? && resp.data.value.items.Some? then resp.data.value.items.value else []
  }

  /** The guard-and-return normalisation shared by both list calls: an error
      throws `failure`, an absent or empty list gives [], anything else is
      returned as the server sent it. */
  function NormaliseList<T>(resp: ListResponse<T>, failure: string): (r: Result<seq<T>, Thrown>)
    ensures resp.error.Some? ==> r == Failure(ErrorObject(failure))
    ensures resp.error.None? ==> r.Success?
    ensures r.Success? ==> r.value == ServerItems(resp)
    ensures r.Success? && r.value != [] ==> resp.data == Some(ListData(Some(r.value)))
  {
    if resp.error.Some? then Failure(ErrorObject(failure))
    else if resp.data.None? || resp.data.value.items.None? || |resp.data.value.items.value| == 0 then Success([])
    else Success(resp.data.value.items.value)
  }

  /** `listWorkspaces`: `POST /public/workspace/list` with an empty body. */
  function ListWorkspaces(call: Call<ListResponse<Workspace>>): (r: Result<seq<Workspace>, Thrown>)
    ensures call.Rejected? ==> r == Failure(call.reason)
    ensures call.Resolved? && call.response.error.Some? ==> r == Failure(ErrorObject(WorkspacesFetchFailed))
    ensures r.Success? <==> call.Resolved? && call.response.error.None?
    ensures r.Success? ==> r.value == ServerItems(call.response)
  {
    match call
    case Rejected(reason) => Failure(reason)
    case Resolved(resp) => NormaliseList(resp, WorkspacesFetchFailed)
  }

  /** `listEnvelopes`: the server is given the body built from the filter and
      page, and its answer is normalised. */
  function ListEnvelopes(server: EnvelopeListBody -> Call<ListResponse<Envelope>>,
                         workspaceUuid: Option<string>, page: Option<int>): (r: Result<seq<Envelope>, Thrown>)
    ensures var call := server(EnvelopeListBodyFor(workspaceUuid, page));
      && (call.Rejected? ==> r == Failure(call.reason))
      && (call.Resolved? && call.response.error.Some? ==> r == Failure(ErrorObject(EnvelopesFetchFailed)))
      && (r.Success? <==> call.Resolved? && call.response.error.None?)
      && (r.Success? ==> r.value == ServerItems(call.response))
  {
    match server(EnvelopeListBodyFor(workspaceUuid, page))
    case Rejected(reason) => Failure(reason)
    case Resolved(resp) => NormaliseList(resp, EnvelopesFetchFailed)
  }

  /** An error response fails with the fixed message whatever `data` holds. */
  lemma ErrorIgnoresData<T>(d1: Option<ListData<T>>, d2: Option<ListData<T>>, e: string, failure: string)
    ensures NormaliseList(ListResponse(d1, Some(e)), failure) == NormaliseList(ListResponse(d2, Some(e)), failure)
    ensures NormaliseList(ListResponse(d1, Some(e)), failure) == Failure(ErrorObject(failure))
  {
  }

  /** Missing `data`, a missing list and an empty list are all the empty
      result, not an error. */
  lemma MissingOrEmptyIsEmpty<T>(failure: string)
    ensures NormaliseList<T>(ListResponse(None, None), failure) == Success([])
    ensures NormaliseList<T>(ListResponse(Some(ListData(None)), None), failure) == Success([])
    ensures NormaliseList<T>(ListResponse(Some(ListData(Some([]))), None), failure) == Success([])
  {
  }

  /** The request never distinguishes "no filter" from "empty filter", and a
      non-empty filter travels verbatim, for every page. */
  lemma BodyFilterRoundTrip(w: string, page: Option<int>)
    ensures EnvelopeListBodyFor(Some(w), page).workspaceUuid == (if w == "" then None else Some(w))
    ensures EnvelopeListBodyFor(Some(""), page) == EnvelopeListBodyFor(None, page)
  {
  }
}
