/** The few shapes of the type catalogue (src/types.ts) that the client itself
    touches. Response payloads are not interpreted by the client, so they are
    kept as an opaque JSON value. */
module Types {
  import opened Wrappers

  /** A decoded JSON value. The client never looks inside a success body or
      inside the `detail` field of an error body; numbers are kept as
      integers because no arithmetic is ever done on them. */
  datatype Json =
    | JNull
    | JBool(b: bool)
    | JNumber(n: int)
    | JString(s: string)
    | JArray(items: seq<Json>)
    | JObject(fields: seq<(string, Json)>)

  /** The remote API's error envelope; the TypeScript field `type` is
      `errorType` here because `type` is a Dafny keyword. */
  datatype ClientError = ClientError(reason: string, message: string, errorType: string, detail: Json)

  /** Optional pagination parameters; an absent field is `None`. */
  datatype PagingOptions = PagingOptions(limit: Option<int>, after: Option<string>, before: Option<string>)
}
