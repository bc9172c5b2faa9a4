/** Values shared by the server, the auth middleware and the React client. */
module Types {

  /** JavaScript's `null`/`undefined` versus a present value. */
  datatype Option<+T> = None | Some(value: T)

  /** A MongoDB ObjectId, as the hexadecimal string that travels in URLs and JSON. */
  type Id = string

  /** The `createdBy` field of a Vote document. The store holds the creator's
      ObjectId; `populate("createdBy", "email")` replaces it by the user's
      `{ _id, email }`, or by null when no user has that id. */
  datatype Creator = CreatorId(id: Id) | CreatorDoc(id: Id, email: string) | NoCreator

  /** A document of the Vote collection: `option` is its label, `votes` (here `tally`) its count. */
  datatype BallotOption = BallotOption(id: Id, option: string, tally: nat, createdBy: Creator)

  /** A document of the User collection, reduced to the fields the vote logic
      and the listing read. `votedFor` holds an ObjectId when set; an ObjectId
      is always truthy, so "set" and "truthy" coincide. */
  datatype User = User(id: Id, email: string, role: string, votedFor: Option<Id>)

  /** A message pushed on the socket.io broadcast stream. */
  datatype Event =
    | VoteCreated(created: BallotOption)
    | VoteUpdated(updated: Option<BallotOption>)
    | VoteDeleted(deletedId: Id)

  /** The outcome of an awaited `fetch` in the client: `Failed` covers a network
      error, a non-ok status and an unreadable body alike. */
  datatype Reply<T> = Failed | Succeeded(data: T)

  /** `m.get(k)`: the record stored under `k`, if any. */
  function Lookup<V>(m: map<Id, V>, k: Id): (r: Option<V>)
    ensures r.Some? <==> k in m
    ensures r.Some? ==> r.value == m[k]
  {
    if k in m then Some(m[k]) else None
  }
}
