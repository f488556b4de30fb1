/** The synced app: every handler changes the local list first, then sends one
    request through `apiRequest`, whose error message (if any) only ever sets
    `fetchError`. Nothing is rolled back and no earlier error is cleared. */
module SyncedApp {
  import opened Optional
  import opened GroceryList
  import opened ApiRequest

  /** `fetchError` after one request: the message `apiRequest` returns (with `errMsg`
      left at `null`) replaces the previous error only when it is truthy. */
  function ErrorAfter(prev: Option<string>, response: Response): (e: Option<string>)
    ensures response.Ok? ==> e == prev
    ensures response.NotOk? ==> e == Some(ReloadMessage)
    ensures response.Threw? ==> e == if response.message != "" then Some(response.message) else prev
  {
    match response
    case Ok => prev
    case NotOk => Some(ReloadMessage)
    case Threw(message) => if message != "" then Some(message) else prev
  }

  /** `fetchError` after a run of mutations whose requests got `responses`, in order. */
  function ErrorAfterAll(prev: Option<string>, responses: seq<Response>): Option<string>
    decreases |responses|
  {
    if responses == [] then prev
    else ErrorAfterAll(ErrorAfter(prev, responses[0]), responses[1..])
  }

  /** Once an error shows, no later mutation hides it, whatever its request gets. */
  lemma {:induction false} ErrorNeverCleared(prev: Option<string>, responses: seq<Response>)
    requires Truthy(prev)
    ensures Truthy(ErrorAfterAll(prev, responses))
    decreases |responses|
  {
    if responses != [] {
      ErrorNeverCleared(ErrorAfter(prev, responses[0]), responses[1..]);
    }
  }

  /** Mutations whose requests all succeed leave `fetchError` as it was. */
  lemma {:induction false} SuccessesKeepError(prev: Option<string>, responses: seq<Response>)
    requires forall i :: 0 <= i < |responses| ==> responses[i] == Ok
    ensures ErrorAfterAll(prev, responses) == prev
  {
    if responses != [] {
      SuccessesKeepError(prev, responses[1..]);
    }
  }

  /** A non-ok response anywhere in a run leaves an error showing at its end. */
  lemma {:induction false} FailureShowsError(prev: Option<string>, responses: seq<Response>, k: nat)
    requires k < |responses| && responses[k] == NotOk
    ensures Truthy(ErrorAfterAll(prev, responses))
    decreases |responses|
  {
    if k == 0 {
      ErrorNeverCleared(Some(ReloadMessage), responses[1..]);
    } else {
      FailureShowsError(ErrorAfter(prev, responses[0]), responses[1..], k - 1);
    }
  }

  class App {
    var items: seq<Item>
    var newItem: string
    var search: string
    var fetchError: Option<string>
    var isLoading: bool

    /** The five `useState` initial values: empty list, no error, loading. */
    constructor ()
      ensures items == [] && newItem == "" && search == ""
      ensures fetchError == None && isLoading
    {
      items := [];
      newItem := "";
      search := "";
      fetchError := None;
      isLoading := true;
    }

    /** `fetchItems`: install the loaded array and clear the error, or record the
        error and keep the list; either way loading is over. */
    method FetchItems(response: LoadResponse)
      modifies this
      ensures !isLoading
      ensures response.Loaded? ==> items == response.data && fetchError == None
      ensures response.LoadNotOk? ==> items == old(items) && fetchError == Some(ReloadMessage)
      ensures response.LoadThrew? ==> items == old(items) && fetchError == Some(response.message)
      ensures newItem == old(newItem) && search == old(search)
    {
      // try
      var thrown: Option<string> := None;
      match response {
        case Loaded(data) =>
          items := data;
          fetchError := None;
        case LoadNotOk =>
          thrown := Some(ReloadMessage);
        case LoadThrew(message) =>
          thrown := Some(message);
      }
      // catch
      if thrown.Some? {
        fetchError := thrown;
      }
      // finally
      isLoading := false;
    }

    /** `addItem(item)`: append the new entry and empty the input, then `POST`
        the entry; a failed request keeps the entry and only sets the error. */
    method AddItem(item: string, response: Response) returns (req: Request)
      modifies this
      ensures items == old(items) + [Item(NextId(old(items)), item, false)]
      ensures newItem == ""
      ensures req == Request(Post, Collection, ItemBody(Item(NextId(old(items)), item, false)))
      ensures fetchError == ErrorAfter(old(fetchError), response)
      ensures search == old(search) && isLoading == old(isLoading)
      ensures StrictlyIncreasing(old(items)) ==> StrictlyIncreasing(items)
    {
      var added := Item(NextId(items), item, false);
      if StrictlyIncreasing(items) {
        AddKeepsIdsIncreasing(items, item);
      }
      items := items + [added];
      newItem := "";
      req := Request(Post, Collection, ItemBody(added));
      var result := Send(req, response, None);
      if Truthy(result) {
        fetchError := result;
      }
    }

    /** `handleCheck(id)`: flip the entries with that id, then `PATCH` the new flag
        of the first of them. With no such entry, `find` yields `undefined`, reading
        `.checked` from it throws, and the handler stops before any request. */
    method HandleCheck(id: int, response: Response) returns (req: Option<Request>)
      modifies this
      ensures items == Toggled(old(items), id)
      ensures req.Some? <==> HasId(old(items), id)
      ensures req.Some? ==>
        req.value == Request(Patch, Member(id), CheckedBody(!Find(old(items), id).value.checked))
      ensures req.Some? ==> fetchError == ErrorAfter(old(fetchError), response)
      ensures req.None? ==> fetchError == old(fetchError)
      ensures newItem == old(newItem) && search == old(search) && isLoading == old(isLoading)
      ensures StrictlyIncreasing(old(items)) ==> StrictlyIncreasing(items)
    {
      var before := items;
      if StrictlyIncreasing(items) {
        ToggleKeepsIdsIncreasing(items, id);
      }
      var listItems := Toggled(items, id);
      items := listItems;
      var found := Find(listItems, id);
      ghost var wasFound := Find(before, id);
      FindAfterToggle(before, id);
      assert found.Some? <==> wasFound.Some?;
      assert found.Some? ==> found.value.checked == !wasFound.value.checked;
      if found.None? {
        req := None;
        return;
      }
      var r := Request(Patch, Member(id), CheckedBody(found.value.checked));
      var result := Send(r, response, None);
      if Truthy(result) {
        fetchError := result;
      }
      req := Some(r);
    }

    /** `handleDelete(id)`: drop the entries with that id, then `DELETE` it remotely. */
    method HandleDelete(id: int, response: Response) returns (req: Request)
      modifies this
      ensures items == Removed(old(items), id)
      ensures req == Request(Delete, Member(id), NoBody)
      ensures fetchError == ErrorAfter(old(fetchError), response)
      ensures newItem == old(newItem) && search == old(search) && isLoading == old(isLoading)
      ensures StrictlyIncreasing(old(items)) ==> StrictlyIncreasing(items)
    {
      if StrictlyIncreasing(items) {
        DeleteKeepsIdsIncreasing(items, id);
      }
      items := Removed(items, id);
      req := Request(Delete, Member(id), NoBody);
      var result := Send(req, response, None);
      if Truthy(result) {
        fetchError := result;
      }
    }

    /** `handleSubmit`: an empty input adds nothing and sends nothing. */
    method HandleSubmit(response: Response) returns (req: Option<Request>)
      modifies this
      ensures old(newItem) == "" ==>
        req == None && items == old(items) && newItem == old(newItem) && fetchError == old(fetchError)
      ensures old(newItem) != "" ==>
        && items == old(items) + [Item(NextId(old(items)), old(newItem), false)]
        && newItem == ""
        && req == Some(Request(Post, Collection, ItemBody(Item(NextId(old(items)), old(newItem), false))))
        && fetchError == ErrorAfter(old(fetchError), response)
      ensures search == old(search) && isLoading == old(isLoading)
    {
      if newItem == "" {
        return None;
      }
      var r := AddItem(newItem, response);
      req := Some(r);
    }

    /** `setNewItem`, called by the input field on every change. */
    method SetNewItem(text: string)
      modifies this
      ensures newItem == text
      ensures items == old(items) && search == old(search)
      ensures fetchError == old(fetchError) && isLoading == old(isLoading)
    {
      newItem := text;
    }

    /** `setSearch`, called by the search field on every change. */
    method SetSearch(text: string)
      modifies this
      ensures search == text
      ensures items == old(items) && newItem == old(newItem)
      ensures fetchError == old(fetchError) && isLoading == old(isLoading)
    {
      search := text;
    }
  }

  /** A failed `POST` during `addItem("Milk")` keeps "Milk" in the list and shows
      the reload message, once loading is over. */
  method AddMilkWhileServerFails()
  {
    var app := new App();
    app.FetchItems(Loaded([]));
    var req := app.AddItem("Milk", NotOk);
    assert app.items == [Item(1, "Milk", false)];
    assert app.fetchError == Some(ReloadMessage);
    assert ViewChoice(app.isLoading, app.fetchError, app.items, app.search) == ErrorText("Error: " + ReloadMessage);
  }
}
