/** The wine list provider of lib/contexts/WinesContext.tsx: it starts from the bundled catalogue
    and replaces it by the endpoint's wines only when these arrive as a non-empty array. The
    bundled catalogue and the endpoint's reply are inputs. */
module WinesContext {
  import opened Basics
  import opened ProductTypes

  const FallbackMessage: string := "Failed to load real wines, using fallback."

  /** What `fetch('/api/wines')` delivers: an ok response whose body is an array, an ok response
      whose body is something else, a response that is not ok, or a request that fails. */
  datatype WinesReply = OkArray(items: seq<WineInfo>) | OkOther | NotOk | Thrown

  /** The index of the first wine with the id `id`, from `from` on. */
  function FirstWithId(wines: seq<WineInfo>, id: string, from: nat): (r: Option<nat>)
    requires from <= |wines|
    ensures r.Some? ==> from <= r.value < |wines| && wines[r.value].id == id
    ensures r.Some? ==> forall j :: from <= j < r.value ==> wines[j].id != id
    ensures r.None? ==> forall j :: from <= j < |wines| ==> wines[j].id != id
    decreases |wines| - from
  {
    if from == |wines| then None
    else if wines[from].id == id then Some(from)
    else FirstWithId(wines, id, from + 1)
  }

  /** `displayWines.find(w => w.id === id)`: the first wine with the id, matched on id only. */
  function WineWithId(wines: seq<WineInfo>, id: string): (r: Option<WineInfo>)
    ensures r.Some? ==> exists i :: 0 <= i < |wines| && wines[i] == r.value && r.value.id == id
                                    && forall j :: 0 <= j < i ==> wines[j].id != id
    ensures r.None? <==> forall w :: w in wines ==> w.id != id
  {
    match FirstWithId(wines, id, 0)
    case None => None
    case Some(i) => Some(wines[i])
  }

  /** A wine whose slug is asked for is not found unless its id is the same text. */
  lemma SlugIsNoId(w: WineInfo)
    requires w.slug != w.id
    ensures WineWithId([w], w.slug) == None
  {
  }

  class Provider {
    var displayWines: seq<WineInfo>
    var isLoading: bool
    var error: Option<string>

    /** The first render: the bundled catalogue, loading, no error. */
    constructor(mock: seq<WineInfo>)
      ensures displayWines == mock && isLoading && error.None?
    {
      displayWines := mock;
      isLoading := true;
      error := None;
    }

    /** `loadWines`: a non-empty array replaces the list; an empty array or another body keeps
        it silently; a response that is not ok or a failed request keeps it and records the
        fallback message. Loading is over afterwards, whatever happened. */
    method LoadWines(reply: WinesReply)
      modifies this
      ensures !isLoading
      ensures reply.OkArray? && |reply.items| > 0 ==> displayWines == reply.items && error == old(error)
      ensures (reply.OkArray? && |reply.items| == 0) || reply.OkOther? ==>
                displayWines == old(displayWines) && error == old(error)
      ensures reply.NotOk? || reply.Thrown? ==> displayWines == old(displayWines) && error == Some(FallbackMessage)
    {
      isLoading := true;
      match reply {
        case OkArray(items) =>
          if |items| > 0 {
            displayWines := items;
          }
        case OkOther =>
        case NotOk =>
          error := Some(FallbackMessage);
        case Thrown =>
          error := Some(FallbackMessage);
      }
      isLoading := false;
    }

    function GetWineById(id: string): (r: Option<WineInfo>)
      reads this
      ensures r.Some? ==> r.value.id == id && r.value in displayWines
      ensures r.None? <==> forall w :: w in displayWines ==> w.id != id
      ensures r.Some? ==> exists i :: 0 <= i < |displayWines| && displayWines[i] == r.value
                                      && forall j :: 0 <= j < i ==> displayWines[j].id != id
      ensures r == WineWithId(displayWines, id)
    {
      WineWithId(displayWines, id)
    }
  }
}
