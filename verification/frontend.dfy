/**
 The values the room store keeps and hands to clients: the free-form
 `frontend_state` object that browsers push and poll, plus the small
 wrapper types the handlers use for their error paths.
 */
module Frontend {

  /** A decoded JSON value as `json_decode` produces it (numbers are integers here). */
  datatype Json =
    | JNull
    | JBool(b: bool)
    | JInt(n: int)
    | JStr(s: string)
    | JArray(items: seq<Json>)
    | JObject(fields: map<string, Json>)

  /** The `frontend_state` dictionary of a room. */
  type FrontendState = map<string, Json>

  datatype Option<+T> = None | Some(value: T)

  datatype Result<+T, +E> = Ok(value: T) | Err(error: E)

  /** The only HTTP failure the handlers raise: `HTTPError(400)`. */
  datatype HttpError = BadRequest

  const VERSION_KEY: string := "version"
  const PLAYERS_KEY: string := "players"

  /** Python's `if state:` on an optional dictionary: `None` and `{}` are false. */
  predicate Truthy(state: Option<FrontendState>)
  {
    state.Some? && |state.value| > 0
  }

  /** The state every new room starts with, in both versions of the room store. */
  function InitialFrontendState(): (r: FrontendState)
    ensures VERSION_KEY in r && r[VERSION_KEY] == JInt(1)
    ensures PLAYERS_KEY !in r
  {
    map[VERSION_KEY := JInt(1), "message" := JStr("AAAAA")]
  }

  /** What a long-poll request yields when it first looks at the registry. */
  datatype PollResult =
    | UnknownRoom               // HTTPError(400): the room id was never created
    | Waiting                   // the request suspends on the room's condition
    | Ready(state: FrontendState)  // the room's state is written back at once
}
