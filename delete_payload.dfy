/** How the delete operation's key reaches the reducer. The delete request
    wrapper resolves with the bare id it was asked to delete, while the
    fulfilled case reads an `id` field of that value and converts it with
    JavaScript's `Number`. This module models just enough JavaScript values to
    follow that path. */
module DeletePayload {
  import opened TodoSlice

  /** The JavaScript values on the delete path: a number, `undefined`, or a
      plain object with named fields. */
  datatype JsValue = JsNumber(n: int) | JsUndefined | JsObject(fields: map<string, JsValue>)

  /** What `Number(v)` gives for those values: an integer, or NaN. */
  datatype Numeric = Finite(n: int) | NaN

  /** Property access `v.name`: None where JavaScript throws a TypeError
      (reading a property of `undefined`); a missing field and any field of a
      number read as `undefined`. */
  function Property(v: JsValue, name: string): (r: Option<JsValue>)
    ensures r.None? <==> v.JsUndefined?
    ensures v.JsNumber? ==> r == Some(JsUndefined)
    ensures v.JsObject? && name in v.fields ==> r == Some(v.fields[name])
    ensures v.JsObject? && name !in v.fields ==> r == Some(JsUndefined)
  {
    match v
    case JsUndefined => None
    case JsNumber(_) => Some(JsUndefined)
    case JsObject(fields) => Some(if name in fields then fields[name] else JsUndefined)
  }

  /** How one delete settles once wrapper and reducer have both run: the
      fulfilled case's new list, the rejected case (the wrapper's `catch`), or
      a throw from the fulfilled case's reducer, which leaves no new state. */
  datatype DeleteOutcome = Fulfilled(todos: seq<Todo>) | Rejected | Throws

  /** `Number(v)`: integers stay, `undefined` and plain objects become NaN. */
  function ToNumber(v: JsValue): Numeric
  {
    match v
    case JsNumber(n) => Finite(n)
    case _ => NaN
  }

  /** `id !== key`: NaN is unequal to every number, itself included. */
  predicate StrictlyDiffers(id: int, key: Numeric)
  {
    match key
    case NaN => true
    case Finite(n) => id != n
  }

  /** `v` is an object whose `id` field holds a number: the request shape
      `{id: k}` the delete operation is dispatched with. */
  predicate HasNumericId(v: JsValue)
  {
    v.JsObject? && "id" in v.fields && v.fields["id"].JsNumber?
  }

  /** The fulfilled case's filter for an already converted key: it keeps,
      in order, the items whose id strictly differs from the key. */
  function FilterByKey(s: seq<Todo>, key: Numeric): (r: seq<Todo>)
    ensures |r| <= |s|
    ensures forall t :: t in r ==> t in s && StrictlyDiffers(t.id, key)
  {
    if s == [] then []
    else if StrictlyDiffers(s[0].id, key) then [s[0]] + FilterByKey(s[1..], key)
    else FilterByKey(s[1..], key)
  }

  /** The delete fulfilled case as written: filter on `Number(payload.id)`.
      Handed `{id: k}` it removes the items with id `k`. Handed `undefined` it
      throws as soon as the filter's callback runs, that is on a non-empty
      list (None). Handed any other value, a bare number among them, the key is
      NaN and it removes nothing. */
  function ReducerDelete(s: seq<Todo>, payload: JsValue): (r: Option<seq<Todo>>)
    ensures r.None? <==> payload.JsUndefined? && s != []
    ensures HasNumericId(payload) ==> r == Some(RemoveId(s, payload.fields["id"].n))
    ensures !HasNumericId(payload) && r.Some? ==> r.value == s
  {
    match Property(payload, "id")
    case None => if s == [] then Some([]) else None
    case Some(field) =>
      var key := ToNumber(field);
      // Both arms filter the same way; they differ only in the lemma that
      // relates the filter to its meaning.
      if HasNumericId(payload) then
        FiniteKeyIsRemoveId(s, payload.fields["id"].n);
        Some(FilterByKey(s, key))
      else
        NaNKeyKeepsAll(s);
        Some(FilterByKey(s, key))
  }

  /** The request wrapper's resolved value: the bare `id` of its argument.
      `deleted` says whether the DELETE request to the service succeeded (the
      network call itself is outside the model). The wrapper rejects (None)
      when reading `.id` of an `undefined` request throws, which happens before
      anything is sent, or when the request fails; both land in its `catch`.
      Otherwise, for a request `{id: k}` it resolves with the plain number
      `k`, which has no `id` field. */
  function ThunkResult(request: JsValue, deleted: bool): (r: Option<JsValue>)
    ensures r.None? <==> request.JsUndefined? || !deleted
    ensures HasNumericId(request) && deleted ==> r == Some(JsNumber(request.fields["id"].n))
    ensures HasNumericId(request) && deleted ==> !HasNumericId(r.value)
  {
    match Property(request, "id")
    case None => None
    case Some(id) => if deleted then Some(id) else None
  }

  /** The delete request `{id: k}` the UI dispatches. */
  function DeleteRequest(k: int): JsValue
  {
    JsObject(map["id" := JsNumber(k)])
  }

  /** Wrapper and reducer as composed in the source: a successful delete of a
      well-formed request removes nothing; the operation is rejected exactly
      when the request is `undefined` or the DELETE request fails. */
  function ComposedDelete(s: seq<Todo>, request: JsValue, deleted: bool): (r: DeleteOutcome)
    ensures HasNumericId(request) && deleted ==> r == Fulfilled(s)
    ensures r.Rejected? <==> request.JsUndefined? || !deleted
  {
    match ThunkResult(request, deleted)
    case None => Rejected
    case Some(payload) =>
      match ReducerDelete(s, payload)
      case None => Throws
      case Some(todos) => Fulfilled(todos)
  }

  /** A NaN key keeps every item. */
  lemma {:induction false} NaNKeyKeepsAll(s: seq<Todo>)
    ensures FilterByKey(s, NaN) == s
  {
    if s != [] {
      NaNKeyKeepsAll(s[1..]);
      assert [s[0]] + s[1..] == s;
    }
  }

  /** As composed, a successful delete of `{id: k}` removes nothing: the
      reducer reads `.id` of a number, gets `undefined`, and filters on NaN. */
  lemma ComposedDeleteIsNoOp(s: seq<Todo>, k: int)
    ensures ComposedDelete(s, DeleteRequest(k), true) == Fulfilled(s)
  {
    assert ThunkResult(DeleteRequest(k), true) == Some(JsNumber(k));
    assert Property(JsNumber(k), "id") == Some(JsUndefined);
    NaNKeyKeepsAll(s);
  }

  /** The input that shows it: one item with id 1, deleted by id 1, stays. */
  lemma ComposedDeleteCounterexample()
    ensures ComposedDelete([Todo(1, "a", false)], DeleteRequest(1), true) == Fulfilled([Todo(1, "a", false)])
    ensures RemoveId([Todo(1, "a", false)], 1) == []
  {
    ComposedDeleteIsNoOp([Todo(1, "a", false)], 1);
  }

  /** A finite key makes the reducer's filter the id filter `RemoveId`. */
  lemma {:induction false} FiniteKeyIsRemoveId(s: seq<Todo>, k: int)
    ensures FilterByKey(s, Finite(k)) == RemoveId(s, k)
  {
    if s != [] {
      FiniteKeyIsRemoveId(s[1..], k);
    }
  }

  /** The intended composition: the reducer filters on `Number(payload)`, the
      resolved id itself (equivalently, the wrapper resolves with the whole
      request and the reducer stays as written). */
  function CorrectedDelete(s: seq<Todo>, request: JsValue, deleted: bool): (r: DeleteOutcome)
    ensures HasNumericId(request) && deleted ==> r == Fulfilled(RemoveId(s, request.fields["id"].n))
    ensures r.Rejected? <==> request.JsUndefined? || !deleted
    ensures !HasNumericId(request) && !request.JsUndefined? && deleted ==> r == Fulfilled(s)
  {
    match ThunkResult(request, deleted)
    case None => Rejected
    case Some(payload) =>
      var key := ToNumber(payload);
      // Both arms filter the same way; they differ only in the lemma that
      // relates the filter to its meaning.
      if HasNumericId(request) then
        FiniteKeyIsRemoveId(s, request.fields["id"].n);
        Fulfilled(FilterByKey(s, key))
      else
        NaNKeyKeepsAll(s);
        Fulfilled(FilterByKey(s, key))
  }

  /** The corrected composition removes exactly the items with the requested
      id, which is what `TodoStore.DeleteFulfilled` does with an integer key;
      and the reducer as written is right when handed the whole request. */
  lemma CorrectedDeleteRemovesId(s: seq<Todo>, k: int)
    ensures CorrectedDelete(s, DeleteRequest(k), true) == Fulfilled(RemoveId(s, k))
    ensures ReducerDelete(s, DeleteRequest(k)) == Some(RemoveId(s, k))
    ensures forall t :: t in CorrectedDelete(s, DeleteRequest(k), true).todos ==> t.id != k
  {
    assert HasNumericId(DeleteRequest(k));
    FiniteKeyIsRemoveId(s, k);
  }
}
