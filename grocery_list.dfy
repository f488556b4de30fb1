/** The grocery list itself: its items and the pure list transforms that both
    versions of the app apply before storing the result with `setItems`. */
module GroceryList {
  import opened Optional
  import opened Lists
  import opened Text

  /** One entry of the list: `{id, item, checked}`. */
  datatype Item = Item(id: int, item: string, checked: bool)

  /** What the startup `GET` of the whole collection came back with: the parsed
      array (`response.ok` and `response.json()` both succeeded), a response whose
      `ok` is false, or a rejection carrying an error message (the fetch itself
      failed or the body was not JSON). */
  datatype LoadResponse = Loaded(data: seq<Item>) | LoadNotOk | LoadThrew(message: string)

  /** Ids grow strictly from the front of the list to its end. */
  ghost predicate StrictlyIncreasing(s: seq<Item>) {
    forall i, j :: 0 <= i < j < |s| ==> s[i].id < s[j].id
  }

  /** No two entries share an id. */
  ghost predicate UniqueIds(s: seq<Item>) {
    forall i, j :: 0 <= i < |s| && 0 <= j < |s| && i != j ==> s[i].id != s[j].id
  }

  /** Some entry has the given id. */
  ghost predicate HasId(s: seq<Item>, id: int) {
    exists i :: 0 <= i < |s| && s[i].id == id
  }

  /** `s[k]` is the first entry whose id is `id`. */
  ghost predicate FirstWithId(s: seq<Item>, id: int, k: int) {
    0 <= k < |s| && s[k].id == id && forall j :: 0 <= j < k ==> s[j].id != id
  }

  /** Increasing ids are unique ids. */
  lemma IncreasingIdsAreUnique(s: seq<Item>)
    requires StrictlyIncreasing(s)
    ensures UniqueIds(s)
  {
  }

  // ---------------------------------------------------------------- adding

  /** The id `addItem` gives a new entry: one more than the id of the LAST entry,
      or 1 for an empty list. */
  function NextId(s: seq<Item>): (r: int)
    ensures StrictlyIncreasing(s) ==> forall i :: 0 <= i < |s| ==> s[i].id < r
  {
    if |s| > 0 then s[|s| - 1].id + 1 else 1
  }

  /** The largest id in a non-empty list. */
  function MaxId(s: seq<Item>): (m: int)
    requires s != []
    ensures forall i :: 0 <= i < |s| ==> s[i].id <= m
    ensures exists i :: 0 <= i < |s| && s[i].id == m
  {
    if |s| == 1 then s[0].id
    else
      var rest := MaxId(s[1..]);
      assert forall i :: 1 <= i < |s| ==> s[i] == s[1..][i - 1];
      if s[0].id >= rest then s[0].id else rest
  }

  /** While ids are increasing, the last id plus one is the largest id plus one,
      and the new id is above every id already in the list. */
  lemma {:induction false} NextIdIsFresh(s: seq<Item>)
    requires StrictlyIncreasing(s)
    ensures s != [] ==> NextId(s) == MaxId(s) + 1
    ensures forall i :: 0 <= i < |s| ==> s[i].id < NextId(s)
  {
    if s != [] {
      var last := |s| - 1;
      forall i | 0 <= i < |s| ensures s[i].id <= s[last].id {
        if i < last {
          assert s[i].id < s[last].id;
        }
      }
      var m :| 0 <= m < |s| && s[m].id == MaxId(s);
      assert s[m].id <= s[last].id;
    }
  }

  /** Appending the entry `addItem` builds keeps the ids increasing, so unique. */
  lemma AddKeepsIdsIncreasing(s: seq<Item>, text: string)
    requires StrictlyIncreasing(s)
    ensures StrictlyIncreasing(s + [Item(NextId(s), text, false)])
    ensures UniqueIds(s + [Item(NextId(s), text, false)])
  {
    NextIdIsFresh(s);
    var t := s + [Item(NextId(s), text, false)];
    assert forall i :: 0 <= i < |s| ==> t[i] == s[i];
  }

  /** The id comes from the last entry only: on a list whose ids are not
      increasing (the startup load installs whatever the server sent) the new id
      can already be in use. */
  lemma NextIdCanCollide()
    ensures var s := [Item(3, "Bread", false), Item(2, "Eggs", false)];
            NextId(s) == s[0].id && NextId(s) != MaxId(s) + 1
  {
    var s := [Item(3, "Bread", false), Item(2, "Eggs", false)];
    assert s[1..] == [Item(2, "Eggs", false)];
  }

  /** Adding "Bread" to the empty list gives `{id: 1, item: "Bread", checked: false}`;
      adding "Eggs" after ids 1 and 2 gives id 3. */
  lemma AddScenarios()
    ensures [] + [Item(NextId([]), "Bread", false)] == [Item(1, "Bread", false)]
    ensures NextId([Item(1, "Milk", false), Item(2, "Bread", true)]) == 3
  {
  }

  // ---------------------------------------------------------------- checking

  /** The list with the `checked` flag flipped on every entry whose id is `id`. */
  function Toggled(s: seq<Item>, id: int): (r: seq<Item>)
    ensures |r| == |s|
    ensures forall i :: 0 <= i < |s| ==> r[i].id == s[i].id && r[i].item == s[i].item
    ensures forall i :: 0 <= i < |s| ==> r[i].checked == (s[i].checked != (s[i].id == id))
  {
    if s == [] then []
    else
      var head := if s[0].id == id then s[0].(checked := !s[0].checked) else s[0];
      [head] + Toggled(s[1..], id)
  }

  /** Checking keeps every id in place, so it keeps them increasing. */
  lemma ToggleKeepsIdsIncreasing(s: seq<Item>, id: int)
    requires StrictlyIncreasing(s)
    ensures StrictlyIncreasing(Toggled(s, id))
  {
  }

  /** An id that no entry has leaves the list as it was. */
  lemma ToggleAbsentIsIdentity(s: seq<Item>, id: int)
    requires !HasId(s, id)
    ensures Toggled(s, id) == s
  {
    var r := Toggled(s, id);
    forall i | 0 <= i < |s| ensures r[i] == s[i] {
      assert s[i].id != id;
    }
  }

  /** Checking the same id twice restores the list. */
  lemma ToggleTwice(s: seq<Item>, id: int)
    ensures Toggled(Toggled(s, id), id) == s
  {
    var once := Toggled(s, id);
    var twice := Toggled(once, id);
    forall i | 0 <= i < |s| ensures twice[i] == s[i] {
      assert twice[i].id == s[i].id && twice[i].item == s[i].item && twice[i].checked == s[i].checked;
    }
  }

  /** The first entry with the given id, or none when no entry has it. */
  function Find(s: seq<Item>, id: int): (r: Option<Item>)
    ensures r.Some? <==> HasId(s, id)
    ensures r.Some? ==> exists k :: FirstWithId(s, id, k) && s[k] == r.value
  {
    if s == [] then None
    else if s[0].id == id then
      assert FirstWithId(s, id, 0);
      Some(s[0])
    else
      var r := Find(s[1..], id);
      assert HasId(s, id) ==> HasId(s[1..], id) by {
        if HasId(s, id) {
          var i :| 0 <= i < |s| && s[i].id == id;
          assert s[1..][i - 1] == s[i];
        }
      }
      assert HasId(s[1..], id) ==> HasId(s, id) by {
        if HasId(s[1..], id) {
          var i :| 0 <= i < |s| - 1 && s[1..][i].id == id;
          assert s[i + 1] == s[1..][i];
        }
      }
      assert r.Some? ==> exists k :: FirstWithId(s, id, k) && s[k] == r.value by {
        if r.Some? {
          var k :| FirstWithId(s[1..], id, k) && s[1..][k] == r.value;
          assert forall j :: 1 <= j < k + 1 ==> s[j] == s[1..][j - 1];
          assert FirstWithId(s, id, k + 1);
        }
      }
      r
  }

  /** After checking `id`, the first entry with that id is the old one with its
      flag flipped: what the synced version sends as the `PATCH` body. */
  lemma {:induction false} FindAfterToggle(s: seq<Item>, id: int)
    ensures Find(Toggled(s, id), id) ==
      match Find(s, id)
      case None => None
      case Some(x) => Some(x.(checked := !x.checked))
  {
    if s != [] {
      var r := Toggled(s, id);
      assert r[1..] == Toggled(s[1..], id);
      if s[0].id != id {
        FindAfterToggle(s[1..], id);
      }
    }
  }

  // ---------------------------------------------------------------- deleting

  /** The list without the entries whose id is `id`. */
  function Removed(s: seq<Item>, id: int): (r: seq<Item>)
    ensures forall x :: x in r <==> x in s && x.id != id
    ensures forall x :: multiset(r)[x] == if x.id != id then multiset(s)[x] else 0
    ensures !HasId(r, id)
    ensures IsSubsequence(r, s)
    ensures !HasId(s, id) ==> r == s
  {
    var r := Filter(s, (x: Item) => x.id != id);
    assert forall i :: 0 <= i < |r| ==> r[i] in r;
    r
  }

  /** The ids of a subsequence of an increasing list are increasing. */
  lemma {:induction false} SubsequenceKeepsIdsIncreasing(a: seq<Item>, b: seq<Item>)
    requires IsSubsequence(a, b)
    requires StrictlyIncreasing(b)
    ensures StrictlyIncreasing(a)
  {
    if a != [] && b != [] {
      assert StrictlyIncreasing(b[1..]) by {
        assert forall i :: 0 <= i < |b| - 1 ==> b[1..][i] == b[i + 1];
      }
      if a[0] == b[0] {
        SubsequenceKeepsIdsIncreasing(a[1..], b[1..]);
        SubsequenceElements(a[1..], b[1..]);
        forall i, j | 0 <= i < j < |a| ensures a[i].id < a[j].id {
          assert a[j] == a[1..][j - 1];
          if i == 0 {
            assert a[j] in b[1..];
            var k :| 0 <= k < |b| - 1 && b[1..][k] == a[j];
            assert b[k + 1] == a[j];
          } else {
            assert a[i] == a[1..][i - 1];
          }
        }
      } else {
        SubsequenceKeepsIdsIncreasing(a, b[1..]);
      }
    }
  }

  /** Deleting keeps the ids increasing. */
  lemma DeleteKeepsIdsIncreasing(s: seq<Item>, id: int)
    requires StrictlyIncreasing(s)
    ensures StrictlyIncreasing(Removed(s, id))
  {
    SubsequenceKeepsIdsIncreasing(Removed(s, id), s);
  }

  /** Ids are assigned from the last entry, not from the largest id ever given:
      deleting the last entry and adding again hands out the deleted id once more. */
  lemma DeleteLastThenAddReusesId()
    ensures var s := [Item(1, "Bread", false), Item(2, "Eggs", false)];
            NextId(Removed(s, 2)) == 2
  {
    var s := [Item(1, "Bread", false), Item(2, "Eggs", false)];
    var r := Removed(s, 2);
    assert s[0] in r;
    assert r[|r| - 1] in r;
  }

  // ---------------------------------------------------------------- searching

  /** The entry's text contains the search text, both lower-cased. */
  predicate MatchesSearch(x: Item, search: string) {
    Includes(Lower(x.item), Lower(search))
  }

  /** The entries whose text contains the search text, ignoring ASCII case, in list order. */
  function Searched(s: seq<Item>, search: string): (r: seq<Item>)
    ensures forall x :: x in r <==> x in s && MatchesSearch(x, search)
    ensures forall x :: multiset(r)[x] == if MatchesSearch(x, search) then multiset(s)[x] else 0
    ensures IsSubsequence(r, s)
    ensures |r| <= |s|
  {
    Filter(s, (x: Item) => MatchesSearch(x, search))
  }

  /** An empty search box shows every entry, in order. */
  lemma EmptySearchShowsAll(s: seq<Item>)
    ensures Searched(s, "") == s
  {
    forall i | 0 <= i < |s| ensures MatchesSearch(s[i], "") {
      IncludesEmpty(Lower(s[i].item));
    }
  }

  /** Two search texts that lower-case alike show the same entries. */
  lemma SearchIgnoresCase(s: seq<Item>, q1: string, q2: string)
    requires Lower(q1) == Lower(q2)
    ensures Searched(s, q1) == Searched(s, q2)
  {
    FilterCongruent(s, (x: Item) => MatchesSearch(x, q1), (x: Item) => MatchesSearch(x, q2));
  }

  /** In particular a search text and its lower-cased form show the same entries. */
  lemma SearchOfLowered(s: seq<Item>, q: string)
    ensures Searched(s, Lower(q)) == Searched(s, q)
  {
    LowerIdempotent(q);
    SearchIgnoresCase(s, Lower(q), q);
  }

  /** An item named "Milk" is shown for the search "MILK" and for "milk" alike. */
  lemma MilkSearchScenario()
    ensures var s := [Item(1, "Milk", false), Item(2, "Bread", false)];
            Searched(s, "MILK") == Searched(s, "milk") && Item(1, "Milk", false) in Searched(s, "milk")
  {
    var milk := Item(1, "Milk", false);
    var s := [milk, Item(2, "Bread", false)];
    assert Lower("MILK") == "milk" by {
      assert Lower("MILK")[0] == 'm' && Lower("MILK")[1] == 'i' && Lower("MILK")[2] == 'l' && Lower("MILK")[3] == 'k';
    }
    assert Lower("milk") == "milk" by {
      assert Lower("milk")[0] == 'm' && Lower("milk")[1] == 'i' && Lower("milk")[2] == 'l' && Lower("milk")[3] == 'k';
    }
    assert Lower("Milk") == "milk" by {
      assert Lower("Milk")[0] == 'm' && Lower("Milk")[1] == 'i' && Lower("Milk")[2] == 'l' && Lower("Milk")[3] == 'k';
    }
    assert OccursAt("milk", "milk", 0);
    assert MatchesSearch(milk, "milk");
    assert milk in s;
    SearchIgnoresCase(s, "MILK", "milk");
  }

  /** The shown entries of an increasing list are increasing too. */
  lemma SearchKeepsIdsIncreasing(s: seq<Item>, search: string)
    requires StrictlyIncreasing(s)
    ensures StrictlyIncreasing(Searched(s, search))
  {
    SubsequenceKeepsIdsIncreasing(Searched(s, search), s);
  }

  // ---------------------------------------------------------------- the page

  /** What the `<main>` element shows. */
  datatype Screen = LoadingText(text: string) | ErrorText(text: string) | ListContent(items: seq<Item>)

  const LoadingMessage: string := "Loading items...."

  /** What `<main>` shows: the loading text while loading, else the error when there is
      a truthy one, else the entries that match the search. */
  function ViewChoice(isLoading: bool, fetchError: Option<string>, items: seq<Item>, search: string): (v: Screen)
    ensures v.LoadingText? <==> isLoading
    ensures v.ErrorText? <==> !isLoading && Truthy(fetchError)
    ensures v.LoadingText? ==> v.text == LoadingMessage
    ensures v.ErrorText? ==> v.text == "Error: " + fetchError.value
    ensures v.ListContent? ==> v.items == Searched(items, search) && IsSubsequence(v.items, items)
  {
    if isLoading then LoadingText(LoadingMessage)
    else if Truthy(fetchError) then ErrorText("Error: " + fetchError.value)
    else ListContent(Searched(items, search))
  }

  /** The number the footer shows: the length of the whole list. */
  function FooterLength(items: seq<Item>): (n: nat)
    ensures n == |items|
    ensures forall search :: |Searched(items, search)| <= n
  {
    |items|
  }

  /** The footer counts every entry, whatever the search box hides. */
  lemma FooterCountsAllItems(items: seq<Item>, search: string)
    ensures FooterLength(items) == |items|
    ensures FooterLength(items) >= |Searched(items, search)|
  {
    assert |Filter(items, (x: Item) => MatchesSearch(x, search))| <= |items|;
  }
}
