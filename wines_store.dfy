/** The catalogue store of lib/store/useWinesStore.ts: the product list with its loading flag,
    error message and fetch time, the cached fetch from the product endpoint, and the id/slug
    lookups. The endpoint's reply and the clock are inputs. */
module WinesStore {
  import opened Basics
  import opened ProductTypes

  /** Five minutes, in milliseconds. */
  const CacheTime: int := 5 * 60 * 1000

  const NoProductsMessage: string := "Продукты не найдены"
  const LoadFailedMessage: string := "Не удалось загрузить данные"

  /** What `fetch('/api/products')` followed by `response.json()` delivers: the product array,
      an object with a non-empty `error` field, or a failure of the request or of the decoding. */
  datatype ProductsReply = ProductList(items: seq<UnifiedProduct>) | ErrorPayload(message: string) | Failed

  /** The list is recent enough: a fetch time is recorded (and, JavaScript being JavaScript, is
      not 0), less than five minutes have passed and the list is not empty. */
  predicate CacheFresh(wines: seq<UnifiedProduct>, lastFetched: Option<int>, now: int) {
    lastFetched.Some? && lastFetched.value != 0 && now - lastFetched.value < CacheTime && |wines| > 0
  }

  /** `w.id === id || ('slug' in w && w.slug === id)`: only wines have a slug. */
  predicate MatchesIdOrSlug(p: UnifiedProduct, id: string) {
    p.Id() == id || (p.Wine? && p.wine.slug == id)
  }

  /** The index of the first product satisfying the lookup, from `from` on. */
  function FirstIdOrSlug(wines: seq<UnifiedProduct>, id: string, from: nat): (r: Option<nat>)
    requires from <= |wines|
    ensures r.Some? ==> from <= r.value < |wines| && MatchesIdOrSlug(wines[r.value], id)
    ensures r.Some? ==> forall j :: from <= j < r.value ==> !MatchesIdOrSlug(wines[j], id)
    ensures r.None? ==> forall j :: from <= j < |wines| ==> !MatchesIdOrSlug(wines[j], id)
    decreases |wines| - from
  {
    if from == |wines| then None
    else if MatchesIdOrSlug(wines[from], id) then Some(from)
    else FirstIdOrSlug(wines, id, from + 1)
  }

  /** `getWineById`: the first product whose id or slug is `id`, when that product is a wine;
      an event found first hides any later wine. */
  function WineById(wines: seq<UnifiedProduct>, id: string): (r: Option<WineInfo>)
    ensures r.Some? <==>
              exists i :: 0 <= i < |wines| && MatchesIdOrSlug(wines[i], id) && wines[i].Wine?
                && forall j :: 0 <= j < i ==> !MatchesIdOrSlug(wines[j], id)
    ensures r.Some? ==> exists i :: 0 <= i < |wines| && wines[i] == Wine(r.value)
    ensures r.Some? ==> FirstIdOrSlug(wines, id, 0).Some? && wines[FirstIdOrSlug(wines, id, 0).value] == Wine(r.value)
  {
    match FirstIdOrSlug(wines, id, 0)
    case None => None
    case Some(i) => if wines[i].Wine? then Some(wines[i].wine) else None
  }

  /** The index of the first product with the id `id`, from `from` on. */
  function FirstWithId(wines: seq<UnifiedProduct>, id: string, from: nat): (r: Option<nat>)
    requires from <= |wines|
    ensures r.Some? ==> from <= r.value < |wines| && wines[r.value].Id() == id
    ensures r.Some? ==> forall j :: from <= j < r.value ==> wines[j].Id() != id
    ensures r.None? ==> forall j :: from <= j < |wines| ==> wines[j].Id() != id
    decreases |wines| - from
  {
    if from == |wines| then None
    else if wines[from].Id() == id then Some(from)
    else FirstWithId(wines, id, from + 1)
  }

  /** `getEventById`: the first product with the id `id`, when it has no slug, that is when it
      is an event. */
  function EventById(wines: seq<UnifiedProduct>, id: string): (r: Option<EventInfo>)
    ensures r.Some? <==>
              exists i :: 0 <= i < |wines| && wines[i].Id() == id && wines[i].Event?
                && forall j :: 0 <= j < i ==> wines[j].Id() != id
    ensures r.Some? ==> r.value.id == id && exists i :: 0 <= i < |wines| && wines[i] == Event(r.value)
    ensures r.Some? ==> FirstWithId(wines, id, 0).Some? && wines[FirstWithId(wines, id, 0).value] == Event(r.value)
  {
    match FirstWithId(wines, id, 0)
    case None => None
    case Some(i) => if wines[i].Event? then Some(wines[i].event) else None
  }

  /** The slug lookup finds a wine by its slug even when its id differs. */
  lemma WineBySlug(w: WineInfo, rest: seq<UnifiedProduct>)
    ensures WineById([Wine(w)] + rest, w.slug) == Some(w)
  {
    assert MatchesIdOrSlug(([Wine(w)] + rest)[0], w.slug);
  }

  /** An event listed before a wine with the same id hides the wine from the wine lookup. */
  lemma EventShadowsWine(e: EventInfo, w: WineInfo)
    requires w.id == e.id
    ensures WineById([Event(e), Wine(w)], e.id) == None
    ensures EventById([Event(e), Wine(w)], e.id) == Some(e)
  {
    assert MatchesIdOrSlug([Event(e), Wine(w)][0], e.id);
  }

  class Store {
    var wines: seq<UnifiedProduct>
    var isLoading: bool
    var error: Option<string>
    var lastFetched: Option<int>

    /** The empty store. */
    constructor()
      ensures wines == [] && !isLoading && error.None? && lastFetched.None?
    {
      wines := [];
      isLoading := false;
      error := None;
      lastFetched := None;
    }

    /** The synchronous part of `fetchProducts`, before the request is awaited: a fresh cache
        (unless forced) or a fetch already in flight (even when forced) ends the call; otherwise
        loading starts and the error is cleared. */
    method BeginFetch(force: bool, now: int) returns (started: bool)
      modifies this
      ensures started <==> (force || !CacheFresh(old(wines), old(lastFetched), now)) && !old(isLoading)
      ensures !started ==> wines == old(wines) && isLoading == old(isLoading) && error == old(error)
                           && lastFetched == old(lastFetched)
      ensures started ==> wines == old(wines) && isLoading && error.None? && lastFetched == old(lastFetched)
    {
      if !force && CacheFresh(wines, lastFetched, now) {
        return false;
      }
      if isLoading {
        return false;
      }
      isLoading := true;
      error := None;
      return true;
    }

    /** The continuation of `fetchProducts` once the reply is there: an array replaces the list
        and stamps the time, with an error exactly when it is empty; an error payload or a failure
        keeps the list and the time and records the failure. Loading ends in every case. */
    method CompleteFetch(reply: ProductsReply, now: int)
      modifies this
      ensures !isLoading
      ensures reply.ProductList? ==>
                wines == reply.items && lastFetched == Some(now)
                && (error.Some? <==> reply.items == []) && (error.Some? ==> error.value == NoProductsMessage)
      ensures !reply.ProductList? ==>
                wines == old(wines) && lastFetched == old(lastFetched) && error == Some(LoadFailedMessage)
    {
      match reply
      case ProductList(items) =>
        wines := items;
        isLoading := false;
        lastFetched := Some(now);
        error := if |items| == 0 then Some(NoProductsMessage) else None;
      case ErrorPayload(_) =>
        isLoading := false;
        error := Some(LoadFailedMessage);
      case Failed =>
        isLoading := false;
        error := Some(LoadFailedMessage);
    }

    /** `fetchProducts(force)` when the reply arrives before anything else touches the store. */
    method FetchProducts(force: bool, now: int, reply: ProductsReply)
      modifies this
      ensures !force && CacheFresh(old(wines), old(lastFetched), now) ==>
                wines == old(wines) && isLoading == old(isLoading) && error == old(error) && lastFetched == old(lastFetched)
      ensures old(isLoading) ==>
                wines == old(wines) && isLoading && error == old(error) && lastFetched == old(lastFetched)
      ensures (force || !CacheFresh(old(wines), old(lastFetched), now)) && !old(isLoading) ==> !isLoading
      ensures (force || !CacheFresh(old(wines), old(lastFetched), now)) && !old(isLoading) && reply.ProductList? ==>
                wines == reply.items && lastFetched == Some(now) && (error.Some? <==> reply.items == [])
      ensures (force || !CacheFresh(old(wines), old(lastFetched), now)) && !old(isLoading) && !reply.ProductList? ==>
                wines == old(wines) && lastFetched == old(lastFetched) && error == Some(LoadFailedMessage)
    {
      var started := BeginFetch(force, now);
      if started {
        CompleteFetch(reply, now);
      }
    }

    /** `setWines`: the list is replaced and the fetch time stamped; loading flag and error stay. */
    method SetWines(items: seq<UnifiedProduct>, now: int)
      modifies this
      ensures wines == items && lastFetched == Some(now)
      ensures isLoading == old(isLoading) && error == old(error)
    {
      wines := items;
      lastFetched := Some(now);
    }
  }
}
