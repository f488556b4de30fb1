/** `apiRequest(url, optionsObj, errMsg)`: issue one request and turn its outcome
    into `null` or an error message, never an exception. */
module ApiRequest {
  import opened Optional
  import opened GroceryList

  /** The HTTP verbs the synced app uses. */
  datatype Verb = Get | Post | Patch | Delete

  /** `API_URL` itself, or `` `${API_URL}/${id}` ``. */
  datatype Url = Collection | Member(id: int)

  /** The JSON body of a request: none, a whole item, or `{checked}`. */
  datatype Body = NoBody | ItemBody(item: Item) | CheckedBody(checked: bool)

  /** One outbound request: `fetch(url, {method, body})`. */
  datatype Request = Request(verb: Verb, url: Url, body: Body)

  /** How `fetch` ended: resolved with `response.ok`, resolved with `!response.ok`,
      or rejected with an error carrying a message. */
  datatype Response = Ok | NotOk | Threw(message: string)

  const ApiUrl: string := "http://localhost:3500/items"

  /** The message of the error thrown for a response that is not ok. */
  const ReloadMessage: string := "Please reload the app."

  /** Hands `request` to the network, whose answer is `response`, and returns
      `errMsg` untouched on success, the reload message on a non-ok status and the
      thrown error's message when the fetch itself fails. */
  method Send(request: Request, response: Response, errMsg: Option<string>) returns (r: Option<string>)
    ensures response.Ok? ==> r == errMsg
    ensures response.NotOk? ==> r == Some(ReloadMessage)
    ensures response.Threw? ==> r == Some(response.message)
  {
    r := errMsg;
    // try: await fetch, then throw on a non-ok status
    var thrown: Option<string> := None;
    match response {
      case Ok =>
      case NotOk =>
        thrown := Some(ReloadMessage);
      case Threw(message) =>
        thrown := Some(message);
    }
    // catch: errMsg = error.message
    if thrown.Some? {
      r := thrown;
    }
  }
}
