/** The todo slice: the store's state, its initial value and the twelve
    transitions that settle the four asynchronous operations (fetch-all, add,
    toggle, delete), each in its pending, fulfilled and rejected phase. */
module TodoSlice {

  datatype Option<T> = None | Some(value: T)

  /** One to-do item as the REST service returns it. */
  datatype Todo = Todo(id: int, title: string, completed: bool)

  /** The ids of a list, in order. */
  function Ids(s: seq<Todo>): seq<int>
  {
    seq(|s|, j requires 0 <= j < |s| => s[j].id)
  }

  /** No two items share an id (what a fetch from the server is expected to give). */
  predicate UniqueIds(s: seq<Todo>)
  {
    forall i, j :: 0 <= i < j < |s| ==> s[i].id != s[j].id
  }

  // ---------------------------------------------------------------------------
  // Toggle's lookup: the first item with a strictly equal id
  // ---------------------------------------------------------------------------

  /** Index of the first item whose id is `k`, the element `find` returns;
      None where `find` returns `undefined`. */
  function FirstIndexOf(s: seq<Todo>, k: int): (r: Option<nat>)
    ensures r.Some? ==> r.value < |s| && s[r.value].id == k
    ensures r.Some? ==> forall j :: 0 <= j < r.value ==> s[j].id != k
    ensures r.None? ==> forall j :: 0 <= j < |s| ==> s[j].id != k
  {
    if s == [] then None
    else if s[0].id == k then Some(0)
    else match FirstIndexOf(s[1..], k)
      case None => None
      case Some(i) => Some(i + 1)
  }

  // ---------------------------------------------------------------------------
  // Toggle fulfilled: overwrite `completed` of the found item
  // ---------------------------------------------------------------------------

  /** The list after toggle fulfilled with `{id: k, completed: c}`; None when
      the lookup finds nothing and the reducer dereferences `undefined`. */
  function Toggled(s: seq<Todo>, k: int, c: bool): (r: Option<seq<Todo>>)
    ensures r.None? <==> forall j :: 0 <= j < |s| ==> s[j].id != k
    ensures r.Some? ==> |r.value| == |s| && Ids(r.value) == Ids(s)
    ensures r.Some? ==> forall j :: 0 <= j < |s| ==> r.value[j].title == s[j].title
    ensures r.Some? ==>
              (exists i :: 0 <= i < |s| && s[i].id == k &&
                 (forall j :: 0 <= j < i ==> s[j].id != k) &&
                 r.value[i].completed == c &&
                 (forall j :: 0 <= j < |s| && j != i ==> r.value[j] == s[j]))
  {
    match FirstIndexOf(s, k)
    case None => None
    case Some(i) => Some(s[i := s[i].(completed := c)])
  }

  /** With unique ids, toggling gives exactly the item with id `k` the new
      flag and leaves every other item as it was. */
  lemma ToggledUniqueExact(s: seq<Todo>, k: int, c: bool)
    requires UniqueIds(s)
    requires Toggled(s, k, c).Some?
    ensures UniqueIds(Toggled(s, k, c).value)
    ensures forall j :: 0 <= j < |s| ==>
              Toggled(s, k, c).value[j] ==
                (if s[j].id == k then s[j].(completed := c) else s[j])
  {
    var r := Toggled(s, k, c).value;
    var i := FirstIndexOf(s, k).value;
    assert r == s[i := s[i].(completed := c)];
    forall j | 0 <= j < |s|
      ensures r[j] == (if s[j].id == k then s[j].(completed := c) else s[j])
    {
      if j != i {
        assert s[j].id != k by {
          if j < i { } else { assert s[i].id != s[j].id; }
        }
      }
    }
    assert Ids(r) == Ids(s);
    forall a, b | 0 <= a < b < |r| ensures r[a].id != r[b].id {
      assert Ids(r)[a] == Ids(s)[a] && Ids(r)[b] == Ids(s)[b];
    }
  }

  // ---------------------------------------------------------------------------
  // Delete fulfilled: keep the items whose id differs from the key
  // ---------------------------------------------------------------------------

  /** The items whose id is not `k`, in their original order. */
  function RemoveId(s: seq<Todo>, k: int): (r: seq<Todo>)
    ensures |r| <= |s|
    ensures forall t :: t in r ==> t in s && t.id != k
  {
    if s == [] then []
    else if s[0].id != k then [s[0]] + RemoveId(s[1..], k)
    else RemoveId(s[1..], k)
  }

  /** Every item whose id is not `k` survives the filter. */
  lemma {:induction false} RemoveIdKeeps(s: seq<Todo>, k: int, t: Todo)
    requires t in s && t.id != k
    ensures t in RemoveId(s, k)
  {
    if s[0] != t {
      assert t in s[1..];
      RemoveIdKeeps(s[1..], k, t);
    }
  }

  /** The filter works item by item in order: it distributes over concatenation. */
  lemma {:induction false} RemoveIdAppend(a: seq<Todo>, b: seq<Todo>, k: int)
    ensures RemoveId(a + b, k) == RemoveId(a, k) + RemoveId(b, k)
  {
    if a == [] {
      assert a + b == b;
    } else {
      assert (a + b)[0] == a[0];
      assert (a + b)[1..] == a[1..] + b;
      RemoveIdAppend(a[1..], b, k);
    }
  }

  /** When no item has id `k`, the filter gives back the list unchanged. */
  lemma {:induction false} RemoveIdAbsent(s: seq<Todo>, k: int)
    requires forall j :: 0 <= j < |s| ==> s[j].id != k
    ensures RemoveId(s, k) == s
  {
    if s != [] {
      RemoveIdAbsent(s[1..], k);
      assert [s[0]] + s[1..] == s;
    }
  }

  /** Deleting the same id twice is the same as deleting it once. */
  lemma RemoveIdIdempotent(s: seq<Todo>, k: int)
    ensures RemoveId(RemoveId(s, k), k) == RemoveId(s, k)
  {
    var r := RemoveId(s, k);
    forall j | 0 <= j < |r| ensures r[j].id != k {
      assert r[j] in r;
    }
    RemoveIdAbsent(r, k);
  }

  /** With unique ids, a present id is removed exactly once. */
  lemma {:induction false} RemoveIdUniqueLength(s: seq<Todo>, k: int)
    requires UniqueIds(s)
    requires exists i :: 0 <= i < |s| && s[i].id == k
    ensures |RemoveId(s, k)| == |s| - 1
  {
    if s[0].id == k {
      forall j | 0 <= j < |s[1..]| ensures s[1..][j].id != k {
        assert s[0].id != s[j + 1].id;
      }
      RemoveIdAbsent(s[1..], k);
    } else {
      var i :| 0 <= i < |s| && s[i].id == k;
      assert s[1..][i - 1].id == k;
      RemoveIdUniqueLength(s[1..], k);
    }
  }

  /** Deleting keeps ids unique. */
  lemma {:induction false} RemoveIdUnique(s: seq<Todo>, k: int)
    requires UniqueIds(s)
    ensures UniqueIds(RemoveId(s, k))
  {
    if s != [] {
      var rest := RemoveId(s[1..], k);
      RemoveIdUnique(s[1..], k);
      if s[0].id != k {
        var r := [s[0]] + rest;
        forall a, b | 0 <= a < b < |r| ensures r[a].id != r[b].id {
          if a == 0 {
            assert r[b] in rest;
            var m :| 0 <= m < |s[1..]| && s[1..][m] == r[b];
            assert s[0].id != s[m + 1].id;
          } else {
            assert r[a] == rest[a - 1] && r[b] == rest[b - 1];
          }
        }
      }
    }
  }

  // ---------------------------------------------------------------------------
  // Add fulfilled: the created item is pushed at the end
  // ---------------------------------------------------------------------------

  /** Appending keeps ids unique exactly when the new id is not yet in the list. */
  lemma AppendUnique(s: seq<Todo>, t: Todo)
    ensures UniqueIds(s + [t]) <==> UniqueIds(s) && forall j :: 0 <= j < |s| ==> s[j].id != t.id
  {
    var r := s + [t];
    if UniqueIds(r) {
      forall j | 0 <= j < |s| ensures s[j].id != t.id {
        assert r[j] == s[j] && r[|s|] == t;
      }
      forall a, b | 0 <= a < b < |s| ensures s[a].id != s[b].id {
        assert r[a] == s[a] && r[b] == s[b];
      }
    }
  }

  // ---------------------------------------------------------------------------
  // The store
  // ---------------------------------------------------------------------------

  /** The slice's state `{loading, todos, error}`; each method is one case of
      the reducer, its payload passed as a parameter. */
  class TodoStore {
    var loading: bool
    var todos: seq<Todo>
    var error: string

    /** The initial state: not loading, no items, no error. */
    constructor ()
      ensures !loading && todos == [] && error == ""
    {
      loading := false;
      todos := [];
      error := "";
    }

    /** Fetch-all pending: loading, the list emptied, the error cleared. */
    method FetchAllPending()
      modifies this
      ensures loading && todos == [] && error == ""
    {
      loading := true;
      todos := [];
      error := "";
    }

    /** Fetch-all fulfilled: the list is exactly the fetched one. */
    method FetchAllFulfilled(payload: seq<Todo>)
      modifies this
      ensures !loading && todos == payload && error == ""
    {
      loading := false;
      todos := payload;
      error := "";
    }

    /** Fetch-all rejected: the list is discarded and the message recorded. */
    method FetchAllRejected(message: string)
      modifies this
      ensures !loading && todos == [] && error == message
    {
      loading := false;
      todos := [];
      error := message;
    }

    /** Add pending: loading, the error cleared, the list untouched. */
    method AddPending()
      modifies this
      ensures loading && error == "" && todos == old(todos)
    {
      loading := true;
      error := "";
    }

    /** Add fulfilled: the created item goes at the end; the error is left alone. */
    method AddFulfilled(payload: Todo)
      modifies this
      ensures !loading && todos == old(todos) + [payload] && error == old(error)
    {
      loading := false;
      todos := todos + [payload];
    }

    /** Add rejected: the message recorded, the list untouched. */
    method AddRejected(message: string)
      modifies this
      ensures !loading && error == message && todos == old(todos)
    {
      loading := false;
      error := message;
    }

    /** Toggle pending: loading, the error cleared, the list untouched. */
    method TogglePending()
      modifies this
      ensures loading && error == "" && todos == old(todos)
    {
      loading := true;
      error := "";
    }

    /** Toggle fulfilled with `{id, completed}`: find the first item with that
        id and overwrite its flag. When none matches, the reducer throws
        (`crashed`) and the state stays as it was. The error is left alone. */
    method ToggleFulfilled(id: int, completed: bool) returns (crashed: bool)
      modifies this
      ensures crashed <==> Toggled(old(todos), id, completed).None?
      ensures crashed ==> loading == old(loading) && todos == old(todos) && error == old(error)
      ensures !crashed ==>
                !loading && todos == Toggled(old(todos), id, completed).value && error == old(error)
    {
      var i := 0;
      while i < |todos| && todos[i].id != id
        invariant 0 <= i <= |todos|
        invariant forall j :: 0 <= j < i ==> todos[j].id != id
      {
        i := i + 1;
      }
      if i == |todos| {
        crashed := true;
        return;
      }
      assert FirstIndexOf(todos, id) == Some(i);
      crashed := false;
      loading := false;
      todos := todos[i := todos[i].(completed := completed)];
    }

    /** Toggle rejected: the message recorded, the list untouched. */
    method ToggleRejected(message: string)
      modifies this
      ensures !loading && error == message && todos == old(todos)
    {
      loading := false;
      error := message;
    }

    /** Delete pending: loading, the error cleared, the list untouched. */
    method DeletePending()
      modifies this
      ensures loading && error == "" && todos == old(todos)
    {
      loading := true;
      error := "";
    }

    /** Delete fulfilled with key `key`: every item with that id is filtered
        out, in order; the error is left alone. */
    method DeleteFulfilled(key: int)
      modifies this
      ensures !loading && todos == RemoveId(old(todos), key) && error == old(error)
    {
      loading := false;
      todos := RemoveId(todos, key);
    }

    /** Delete rejected: the message recorded, the list untouched. */
    method DeleteRejected(message: string)
      modifies this
      ensures !loading && error == message && todos == old(todos)
    {
      loading := false;
      error := message;
    }
  }

  /** Fetch one item, toggle it, delete it: the list ends empty. The delete is
      given the integer key directly, the corrected composition; as composed in
      the source the key is NaN and the item stays
      (`DeletePayload.ComposedDeleteCounterexample`). */
  method ScenarioFetchToggleDelete()
  {
    var store := new TodoStore();
    store.FetchAllPending();
    store.FetchAllFulfilled([Todo(1, "a", false)]);
    assert store.todos == [Todo(1, "a", false)];
    store.TogglePending();
    var crashed := store.ToggleFulfilled(1, true);
    assert FirstIndexOf([Todo(1, "a", false)], 1) == Some(0);
    assert !crashed && store.todos == [Todo(1, "a", true)];
    store.DeletePending();
    store.DeleteFulfilled(1);
    assert store.todos == [] && !store.loading && store.error == "";
  }

  /** A failed add records the message and keeps the list. */
  method ScenarioAddRejected(before: seq<Todo>)
  {
    var store := new TodoStore();
    store.FetchAllFulfilled(before);
    store.AddPending();
    assert store.loading && store.error == "";
    store.AddRejected("Network Error");
    assert !store.loading && store.error == "Network Error" && store.todos == before;
  }
}
