/** Resolution of a service, node or network from user input: the input is first tried
    as an exact ID; when that get fails for any reason, the entities are listed with a
    name filter holding the input, and the listing must hold exactly one entity. The
    control plane is an abstract store: a get by ID that either finds an entity or
    fails, and a filtered listing that either returns entities or fails with a
    message. */
module Swarmkit {
  import opened Common

  /** The outcome of a filtered listing. */
  datatype Listing<E> = Listed(items: seq<E>) | ListFailed(message: string)

  /** The read side of the control plane for one entity kind. */
  datatype Store<E> = Store(get: string -> Option<E>, listByName: string -> Listing<E>)

  /** GetService, GetNode and GetNetwork, which differ only in kind. */
  function Resolve<E>(kind: Kind, store: Store<E>, input: string): (r: Result<E>)
    // an exact-ID hit wins and nothing is listed
    ensures store.get(input).Some? ==> r == Ok(store.get(input).value)
    // otherwise the listing decides
    ensures store.get(input).None? ==>
      match store.listByName(input)
      case ListFailed(m) => r == Err(Remote(m))
      case Listed(items) =>
        && (r == Err(NotFound(kind, input)) <==> items == [])
        && (r.Err? && r.error.Ambiguous? <==> |items| > 1)
        && (r.Err? && r.error.Ambiguous? ==> r.error == Ambiguous(kind, input, |items|))
        && (r.Ok? <==> |items| == 1)
        && (r.Ok? ==> r.value == items[0])
  {
    match store.get(input)
    case Some(e) => Ok(e)
    case None =>
      match store.listByName(input)
      case ListFailed(m) => Err(Remote(m))
      case Listed(items) =>
        if |items| == 0 then Err(NotFound(kind, input))
        else if |items| > 1 then Err(Ambiguous(kind, input, |items|))
        else Ok(items[0])
  }

  /** A resolved entity is the exact-ID hit or the one entity the listing returned; a
      failure is the listing's own error, not-found, or ambiguity with the exact
      count. */
  lemma ResolveSound<E>(kind: Kind, store: Store<E>, input: string)
    ensures var r := Resolve(kind, store, input);
      && (r.Ok? ==> Some(r.value) == store.get(input)
                    || (store.get(input).None? && store.listByName(input) == Listed([r.value])))
      && (r.Err? ==> store.get(input).None? && match store.listByName(input)
                       case ListFailed(m) => r.error == Remote(m)
                       case Listed(items) =>
                         r.error == (if items == [] then NotFound(kind, input) else Ambiguous(kind, input, |items|)))
  {
    var r := Resolve(kind, store, input);
    if r.Ok? && store.get(input).None? {
      var items := store.listByName(input).items;
      assert items == [items[0]];
    }
  }

  /** When the input is an exact ID, what the name filter would list plays no part. */
  lemma ExactIDIgnoresNames<E>(kind: Kind, store: Store<E>, other: string -> Listing<E>, input: string)
    requires store.get(input).Some?
    ensures Resolve(kind, store, input) == Resolve(kind, store.(listByName := other), input)
  {
  }
}
