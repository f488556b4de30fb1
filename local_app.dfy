/** The local-only app: the component state and its handlers, with no server
    writes. Each handler computes the new list from the old one and stores it. */
module LocalApp {
  import opened Optional
  import opened GroceryList

  /** The message of the error thrown when the startup load is not ok. */
  const NoDataMessage: string := "Did not receive expected data."

  class App {
    var items: seq<Item>
    var newItem: string
    var search: string
    var fetchError: Option<string>
    var isLoading: bool

    /** The five `useState` initial values. */
    constructor ()
      ensures items == [] && newItem == "" && search == ""
      ensures fetchError == None && isLoading
    {
      items := [];
      newItem := "";
      search := "";
      fetchError := None;
      isLoading := true;
    }

    /** `fetchItems`: install the loaded array and clear the error, or record the
        error and keep the list; either way loading is over. */
    method FetchItems(response: LoadResponse)
      modifies this
      ensures !isLoading
      ensures response.Loaded? ==> items == response.data && fetchError == None
      ensures response.LoadNotOk? ==> items == old(items) && fetchError == Some(NoDataMessage)
      ensures response.LoadThrew? ==> items == old(items) && fetchError == Some(response.message)
      ensures newItem == old(newItem) && search == old(search)
    {
      // try
      var thrown: Option<string> := None;
      match response {
        case Loaded(data) =>
          items := data;
          fetchError := None;
        case LoadNotOk =>
          thrown := Some(NoDataMessage);
        case LoadThrew(message) =>
          thrown := Some(message);
      }
      // catch
      if thrown.Some? {
        fetchError := thrown;
      }
      // finally
      isLoading := false;
    }

    /** `addItem(item)`: append `{id, checked: false, item}` and empty the input. */
    method AddItem(item: string)
      modifies this
      ensures items == old(items) + [Item(NextId(old(items)), item, false)]
      ensures newItem == ""
      ensures search == old(search) && fetchError == old(fetchError) && isLoading == old(isLoading)
      ensures StrictlyIncreasing(old(items)) ==> StrictlyIncreasing(items)
    {
      var newListItem := Item(NextId(items), item, false);
      if StrictlyIncreasing(items) {
        AddKeepsIdsIncreasing(items, item);
      }
      items := items + [newListItem];
      newItem := "";
    }

    /** `handleCheck(id)`: flip `checked` on the entries with that id. */
    method HandleCheck(id: int)
      modifies this
      ensures items == Toggled(old(items), id)
      ensures newItem == old(newItem) && search == old(search)
      ensures fetchError == old(fetchError) && isLoading == old(isLoading)
      ensures StrictlyIncreasing(old(items)) ==> StrictlyIncreasing(items)
    {
      if StrictlyIncreasing(items) {
        ToggleKeepsIdsIncreasing(items, id);
      }
      items := Toggled(items, id);
    }

    /** `handleDelete(id)`: drop the entries with that id. */
    method HandleDelete(id: int)
      modifies this
      ensures items == Removed(old(items), id)
      ensures newItem == old(newItem) && search == old(search)
      ensures fetchError == old(fetchError) && isLoading == old(isLoading)
      ensures StrictlyIncreasing(old(items)) ==> StrictlyIncreasing(items)
    {
      if StrictlyIncreasing(items) {
        DeleteKeepsIdsIncreasing(items, id);
      }
      items := Removed(items, id);
    }

    /** `handleSubmit`: an empty input adds nothing; otherwise add its text. */
    method HandleSubmit()
      modifies this
      ensures old(newItem) == "" ==> items == old(items) && newItem == old(newItem)
      ensures old(newItem) != "" ==>
        items == old(items) + [Item(NextId(old(items)), old(newItem), false)] && newItem == ""
      ensures search == old(search) && fetchError == old(fetchError) && isLoading == old(isLoading)
    {
      if newItem == "" {
        return;
      }
      AddItem(newItem);
    }

    /** `setNewItem`, called by the input field on every change. */
    method SetNewItem(text: string)
      modifies this
      ensures newItem == text
      ensures items == old(items) && search == old(search)
      ensures fetchError == old(fetchError) && isLoading == old(isLoading)
    {
      newItem := text;
    }

    /** `setSearch`, called by the search field on every change. */
    method SetSearch(text: string)
      modifies this
      ensures search == text
      ensures items == old(items) && newItem == old(newItem)
      ensures fetchError == old(fetchError) && isLoading == old(isLoading)
    {
      search := text;
    }
  }
}
