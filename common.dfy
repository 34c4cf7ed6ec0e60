/** Values shared by the three views: optional values, the replies of the two
    remote services, the stored session token and `Promise.all`. */
module Common {

  datatype Option<T> = None | Some(value: T) {
    function GetOr(default: T): T {
      match this
      case Some(v) => v
      case None => default
    }
  }

  /** The `{ name }` objects nested in catalog records: `types[i].type` and
      `abilities[i].ability`. */
  datatype NamedRef = NamedRef(name: string)
  datatype TypeSlot = TypeSlot(kind: NamedRef)
  datatype AbilitySlot = AbilitySlot(ability: NamedRef)

  /** One entry of the catalog's name/url index. */
  datatype IndexEntry = IndexEntry(name: string, url: string)

  /** The detail urls of index entries, in order. */
  function Urls(entries: seq<IndexEntry>): (r: seq<string>)
    ensures |r| == |entries| && forall i :: 0 <= i < |entries| ==> r[i] == entries[i].url
  {
    seq(|entries|, i requires 0 <= i < |entries| => entries[i].url)
  }

  /** The body of a create request to the backend. */
  datatype NewPokemon = NewPokemon(name: string, imageUrl: string, types: seq<string>,
                                   height: real, weight: real, abilities: seq<string>)

  /** A call to the application backend, as the handlers see it: a 2xx
      response with its decoded body; a non-2xx response with the `message`
      field of its error body ("" when the body has none, which the `||`
      fallbacks treat like a missing field); or the message of the exception
      thrown by `fetch` or by JSON decoding. */
  datatype Reply<T> = Ok(value: T) | Rejected(message: string) | Failed(reason: string)

  /** A call to the public catalog. The views decode the body without looking
      at the status, so the only failure is an exception. */
  datatype Outcome<T> = Done(value: T) | Threw(reason: string)

  /** The message a handler's `catch` clause shows for a failed backend call:
      `errorData.message || fallback` for a non-2xx status, the exception's own
      message otherwise. */
  function ErrorText<T>(r: Reply<T>, fallback: string): (e: string)
    requires !r.Ok?
    ensures r.Rejected? && r.message != "" ==> e == r.message
    ensures r.Rejected? && r.message == "" ==> e == fallback
    ensures r.Failed? ==> e == r.reason
  {
    match r
    case Rejected(m) => if m != "" then m else fallback
    case Failed(reason) => reason
  }

  /** `localStorage.getItem('access_token')` is truthy: present and not the
      empty string. */
  predicate HasToken(stored: Option<string>) {
    stored.Some? && stored.value != ""
  }

  /** `Promise.all(keys.map(fetch))`: every result in order when every call
      succeeds; otherwise the whole call fails with the reason of a failing
      call (the first one in order stands for the first one in time). */
  function FetchAll<K, T>(keys: seq<K>, fetch: K -> Outcome<T>): (r: Outcome<seq<T>>)
    ensures r.Done? <==> forall i :: 0 <= i < |keys| ==> fetch(keys[i]).Done?
    ensures r.Done? ==> |r.value| == |keys|
    ensures r.Done? ==> forall i :: 0 <= i < |keys| ==> fetch(keys[i]) == Done(r.value[i])
    ensures r.Threw? ==> exists i :: 0 <= i < |keys| && fetch(keys[i]) == Threw(r.reason)
  {
    if keys == [] then Done([])
    else
      match fetch(keys[0])
      case Threw(e) => Threw(e)
      case Done(v) =>
        var rest := FetchAll(keys[1..], fetch);
        assert forall i :: 1 <= i < |keys| ==> keys[i] == keys[1..][i - 1];
        match rest
        case Threw(e) => Threw(e)
        case Done(vs) => Done([v] + vs)
  }
}
