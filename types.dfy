/** The records the extension exchanges with the host and with the Subnoto API.
    `Preferences` and `Workspace` follow src/lib/types.ts; `Envelope` keeps the
    fields the envelope list reads. Timestamps are whole numbers (seconds or
    milliseconds since the epoch). */
module Types {

  /** The web app's envelope pages, which every command links into. */
  const AppEnvelopesUrl: string := "https://app.subnoto.com/envelopes/"

  datatype Preferences = Preferences(apiAccessKey: string, apiSecretKey: string)

  datatype Workspace = Workspace(
    uuid: string,
    name: string,
    creationDate: int,
    updateDate: int,
    membersCount: nat)

  datatype Metrics = Metrics(signatureCount: nat, signatureRequiredCount: nat)

  datatype Envelope = Envelope(
    uuid: string,
    title: string,
    status: string,
    tags: seq<string>,
    workspaceUuid: string,
    updateDate: int,
    metrics: Metrics)

  /** A value a promise rejects with: an `Error` object, or anything else
      together with its `String(...)` rendering. */
  datatype Thrown = ErrorObject(message: string) | NonError(text: string)

  /** The message of the error a handler records for a thrown value: an
      `Error` keeps its own, anything else is wrapped with its string form. */
  function AsErrorMessage(t: Thrown): (m: string)
    ensures t.ErrorObject? ==> m == t.message
    ensures t.NonError? ==> m == t.text
  {
    match t
    case ErrorObject(message) => message
    case NonError(text) => text
  }
}
