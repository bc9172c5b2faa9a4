/** The four vote routes of the Express server, as they appear (twice, with the
    same logic) in backend/server.js and server.js: create an option, list the
    options, cast a vote, delete an option. The Vote collection is a map from id
    to document plus the insertion order `Vote.find()` returns them in; the User
    collection is a map from id to document; `io.emit` appends to an event log.
    Stored and broadcast documents carry the creator's id; only the listing
    populates it.

    The handlers are modelled twice over: as functions from the old database to
    the new one and the response (`CreateStep`, `CastStep`, ...), which the
    lemmas reason about, and as the methods of `VoteServer`, which perform the
    store writes one after another and are proved to agree with those functions. */
module Server {
  import opened Types
  import Auth

  const AlreadyVoted: string := "You have already voted"
  const OptionRequired: string := "Option is required"
  const DeletedMessage: string := "Vote deleted successfully"

  /** backend/server.js and the root server.js differ, within these routes, only
      in the body of the delete confirmation. */
  datatype Variant = BackendServer | RootServer

  datatype Response =
    | Created(created: BallotOption)                         // 201, the new document
    | Listed(options: seq<BallotOption>)                     // 200, every document
    | Voted(vote: Option<BallotOption>, user: Option<User>)  // 200, `{ vote, user }`
    | Deleted(message: string, success: Option<bool>)        // 200, the confirmation
    | BadRequest(error: string)                              // 400
    | ServerError                                            // 500, the caught exception
    | Unauthorized(error: string)                            // 401 from `authenticate`
    | NotAdmin                                               // refused by `isAdmin`

  /** Which awaited store call of the cast handler throws, if any. */
  datatype CastFault = NoFault | IncrementThrows | UserUpdateThrows

  datatype Db = Db(
    options: map<Id, BallotOption>,
    order: seq<Id>,
    users: map<Id, User>,
    events: seq<Event>)

  datatype Outcome = Outcome(db: Db, response: Response)

  predicate NoDuplicates(s: seq<Id>)
  {
    forall i, j :: 0 <= i < j < |s| ==> s[i] != s[j]
  }

  /** A broadcast document, as `Vote.create` and `findByIdAndUpdate` return
      it: its creator is the bare id. */
  predicate Unpopulated(e: Event)
  {
    match e
    case VoteCreated(o) => o.createdBy.CreatorId?
    case VoteUpdated(u) => u.Some? ==> u.value.createdBy.CreatorId?
    case VoteDeleted(_) => true
  }

  /** Every document is filed under its own id and holds its creator's id, the
      insertion order lists each stored option exactly once, and every
      broadcast document is unpopulated. */
  predicate WellFormed(db: Db)
  {
    && (forall k :: k in db.options ==> db.options[k].id == k)
    && (forall k :: k in db.options ==> db.options[k].createdBy.CreatorId?)
    && (forall k :: k in db.options ==> k in db.order)
    && (forall k :: k in db.order ==> k in db.options)
    && NoDuplicates(db.order)
    && (forall k :: k in db.users ==> db.users[k].id == k)
    && (forall i :: 0 <= i < |db.events| ==> Unpopulated(db.events[i]))
  }

  /** The documents named by `order`, in that order. */
  function Listing(options: map<Id, BallotOption>, order: seq<Id>): (l: seq<BallotOption>)
    requires forall k :: k in order ==> k in options
    ensures |l| == |order|
    ensures forall i :: 0 <= i < |order| ==> l[i] == options[order[i]]
  {
    if order == [] then [] else [options[order[0]]] + Listing(options, order[1..])
  }

  /** The stored documents, in creation order. The model takes this to be the
      natural order an unsorted `Vote.find()` returns them in. */
  function ListingOf(db: Db): seq<BallotOption>
    requires WellFormed(db)
  {
    Listing(db.options, db.order)
  }

  /** `populate("createdBy", "email")` on one document: a creator id that names
      a user becomes that user's `{ _id, email }`, an id that names nobody
      becomes null, and the other fields are kept. */
  function PopulateOne(o: BallotOption, users: map<Id, User>): (p: BallotOption)
    ensures p.id == o.id && p.option == o.option && p.tally == o.tally
    ensures o.createdBy.CreatorId? && o.createdBy.id in users ==>
      p.createdBy == CreatorDoc(o.createdBy.id, users[o.createdBy.id].email)
    ensures o.createdBy.CreatorId? && o.createdBy.id !in users ==> p.createdBy == NoCreator
    ensures !o.createdBy.CreatorId? ==> p == o
  {
    match o.createdBy
    case CreatorId(c) => o.(createdBy := if c in users then CreatorDoc(c, users[c].email) else NoCreator)
    case _ => o
  }

  /** `populate` applied to every document of a listing. */
  function Populate(list: seq<BallotOption>, users: map<Id, User>): (r: seq<BallotOption>)
    ensures |r| == |list|
    ensures forall i :: 0 <= i < |list| ==> r[i] == PopulateOne(list[i], users)
  {
    seq(|list|, i requires 0 <= i < |list| => PopulateOne(list[i], users))
  }

  /** The body of a 200 answer to GET /api/votes. */
  function GetListing(db: Db): seq<BallotOption>
    requires WellFormed(db)
  {
    Populate(ListingOf(db), db.users)
  }

  /** `order` without `id`, the rest kept in order. */
  function Without(order: seq<Id>, id: Id): (r: seq<Id>)
    ensures forall k :: k in r <==> k in order && k != id
    ensures NoDuplicates(order) ==> NoDuplicates(r)
  {
    if order == [] then []
    else if order[0] == id then Without(order[1..], id)
    else
      var rest := Without(order[1..], id);
      assert NoDuplicates(order) ==> order[0] !in order[1..];
      [order[0]] + rest
  }

  /** `after` differs from `before` at most in the tally of `id`, which went up
      by exactly one; an absent `id` leaves the collection as it was. */
  predicate TallyBumpedOnly(before: map<Id, BallotOption>, after: map<Id, BallotOption>, id: Id)
  {
    && after.Keys == before.Keys
    && (forall k :: k in before && k != id ==> after[k] == before[k])
    && (id in before ==> after[id] == before[id].(tally := before[id].tally + 1))
  }

  /** `after` differs from `before` at most in the `votedFor` of `voter`, which
      is now `id`. */
  predicate VotedForSetOnly(before: map<Id, User>, after: map<Id, User>, voter: Id, id: Id)
  {
    && after.Keys == before.Keys
    && (forall k :: k in before && k != voter ==> after[k] == before[k])
    && (voter in before ==> after[voter] == before[voter].(votedFor := Some(id)))
  }

  lemma ListingAppend(options: map<Id, BallotOption>, order: seq<Id>, id: Id, o: BallotOption)
    requires forall k :: k in order ==> k in options
    requires id !in options
    ensures Listing(options[id := o], order + [id]) == Listing(options, order) + [o]
  {
    var l := Listing(options[id := o], order + [id]);
    var r := Listing(options, order) + [o];
    forall i | 0 <= i < |l|
      ensures l[i] == r[i]
    {
      if i < |order| {
        assert (order + [id])[i] == order[i];
      }
    }
  }

  // ------------------------------------------------------------------
  // The handlers as functions of the database
  // ------------------------------------------------------------------

  /** POST /api/votes. A missing or empty `option` is a 400 and changes nothing;
      a throwing `Vote.create` (a duplicate `_id` among its causes) is a 500 and
      changes nothing; otherwise exactly one option is added, with the given
      label and the caller as creator, it goes last in the listing, and
      `voteCreated` is broadcast with it before the 201. */
  function CreateStep(db: Db, caller: User, option: Option<string>, newId: Id, initialTally: nat, storeThrows: bool): (out: Outcome)
    requires WellFormed(db)
    ensures WellFormed(out.db)
    ensures (option.None? || option.value == "") ==> out == Outcome(db, BadRequest(OptionRequired))
    ensures out.response.Created? <==> option.Some? && option.value != "" && !storeThrows && newId !in db.options
    ensures out.response.Created? ==>
      var o := out.response.created;
      && o == BallotOption(newId, option.value, initialTally, CreatorId(caller.id))
      && out.db.options == db.options[newId := o]
      && ListingOf(out.db) == ListingOf(db) + [o]
      && out.db.users == db.users
      && out.db.events == db.events + [VoteCreated(o)]
    ensures option.Some? && option.value != "" && !out.response.Created? ==> out == Outcome(db, ServerError)
  {
    if option.None? || option.value == "" then Outcome(db, BadRequest(OptionRequired))
    else if storeThrows || newId in db.options then Outcome(db, ServerError)
    else
      var o := BallotOption(newId, option.value, initialTally, CreatorId(caller.id));
      var db' := db.(options := db.options[newId := o], order := db.order + [newId],
                     events := db.events + [VoteCreated(o)]);
      ListingAppend(db.options, db.order, newId, o);
      AddKeepsWellFormed(db, o);
      Outcome(db', Created(o))
  }

  /** Storing a new option under a fresh id, last in the order, and
      broadcasting it unpopulated keeps the store well formed. */
  lemma AddKeepsWellFormed(db: Db, o: BallotOption)
    requires WellFormed(db)
    requires o.id !in db.options && o.createdBy.CreatorId?
    ensures WellFormed(db.(options := db.options[o.id := o], order := db.order + [o.id],
                           events := db.events + [VoteCreated(o)]))
  {
    var db' := db.(options := db.options[o.id := o], order := db.order + [o.id],
                   events := db.events + [VoteCreated(o)]);
    assert o.id !in db.order;
    assert NoDuplicates(db'.order);
    forall i | 0 <= i < |db'.events|
      ensures Unpopulated(db'.events[i])
    {
      if i < |db.events| {
        assert db'.events[i] == db.events[i];
      }
    }
  }

  /** GET /api/votes: every option in creation order with its creator
      populated, or a 500; never a change. */
  function ListResponse(db: Db, storeThrows: bool): (r: Response)
    requires WellFormed(db)
    ensures storeThrows ==> r == ServerError
    ensures !storeThrows ==> r.Listed? && |r.options| == |db.order| == |db.options|
    ensures !storeThrows ==> forall i :: 0 <= i < |db.order| ==>
      r.options[i] == PopulateOne(db.options[db.order[i]], db.users)
  {
    assert |db.order| == |db.options| by {
      OrderCountsOptions(db.options.Keys, db.order);
    }
    if storeThrows then ServerError else Listed(GetListing(db))
  }

  /** A duplicate-free sequence that holds exactly the keys has as many elements. */
  lemma {:induction false} OrderCountsOptions(keys: set<Id>, order: seq<Id>)
    requires forall k :: k in keys <==> k in order
    requires NoDuplicates(order)
    ensures |order| == |keys|
    decreases |order|
  {
    if order != [] {
      var rest := order[1..];
      assert forall k :: k in keys - {order[0]} <==> k in rest by {
        forall k | k in rest
          ensures k != order[0]
        {
          var j :| 0 <= j < |rest| && rest[j] == k;
          assert order[j + 1] == k;
        }
        forall k | k in keys - {order[0]}
          ensures k in rest
        {
          assert k in order;
          var j :| 0 <= j < |order| && order[j] == k;
          assert j != 0;
          assert rest[j - 1] == k;
        }
      }
      OrderCountsOptions(keys - {order[0]}, rest);
    }
  }

  /** POST /api/vote/:id, as written. The already-voted check reads `caller`,
      the snapshot `authenticate` loaded, not the store. Then the tally is
      incremented (an absent id increments nothing and yields null), then the
      caller's `votedFor` is written (even for an absent id), then `voteUpdated`
      is broadcast with the incremented option (or null) and the same option
      and the updated user are the 200 response. A throw at either store call is
      a 500 with no broadcast; one at the second leaves the increment in place. */
  function CastStep(db: Db, caller: User, id: Id, fault: CastFault): (out: Outcome)
    requires WellFormed(db)
    ensures WellFormed(out.db)
    ensures out.db.order == db.order
    ensures caller.votedFor.Some? ==> out == Outcome(db, BadRequest(AlreadyVoted))
    ensures caller.votedFor.None? && fault == IncrementThrows ==> out == Outcome(db, ServerError)
    ensures caller.votedFor.None? && fault == UserUpdateThrows ==>
      && out.response == ServerError
      && TallyBumpedOnly(db.options, out.db.options, id)
      && out.db.users == db.users
      && out.db.events == db.events
    ensures caller.votedFor.None? && fault == NoFault ==>
      && TallyBumpedOnly(db.options, out.db.options, id)
      && VotedForSetOnly(db.users, out.db.users, caller.id, id)
      && out.db.events == db.events + [VoteUpdated(Lookup(out.db.options, id))]
      && out.response == Voted(Lookup(out.db.options, id), Lookup(out.db.users, caller.id))
    ensures out.response.Voted? <==> caller.votedFor.None? && fault == NoFault
  {
    if caller.votedFor.Some? then Outcome(db, BadRequest(AlreadyVoted))
    else if fault == IncrementThrows then Outcome(db, ServerError)
    else
      var vote := if id in db.options then Some(db.options[id].(tally := db.options[id].tally + 1)) else None;
      var options := if vote.Some? then db.options[id := vote.value] else db.options;
      assert TallyBumpedOnly(db.options, options, id);
      if fault == UserUpdateThrows then
        CastKeepsWellFormed(db, options, db.users, None);
        Outcome(db.(options := options), ServerError)
      else
        assert fault == NoFault;
        var user := if caller.id in db.users then Some(db.users[caller.id].(votedFor := Some(id))) else None;
        var users := if user.Some? then db.users[caller.id := user.value] else db.users;
        assert VotedForSetOnly(db.users, users, caller.id, id);
        CastKeepsWellFormed(db, options, users, vote);
        Outcome(Db(options, db.order, users, db.events + [VoteUpdated(vote)]), Voted(vote, user))
  }

  /** Bumping tallies and writing `votedFor` in place, and broadcasting an
      unpopulated document, keep the store well formed. */
  lemma CastKeepsWellFormed(db: Db, options: map<Id, BallotOption>, users: map<Id, User>, vote: Option<BallotOption>)
    requires WellFormed(db)
    requires options.Keys == db.options.Keys
    requires forall k :: k in options ==> options[k].id == db.options[k].id && options[k].createdBy == db.options[k].createdBy
    requires users.Keys == db.users.Keys
    requires forall k :: k in users ==> users[k].id == db.users[k].id
    requires vote.Some? ==> vote.value.createdBy.CreatorId?
    ensures WellFormed(db.(options := options))
    ensures WellFormed(Db(options, db.order, users, db.events + [VoteUpdated(vote)]))
  {
    var events := db.events + [VoteUpdated(vote)];
    forall i | 0 <= i < |events|
      ensures Unpopulated(events[i])
    {
      if i < |db.events| {
        assert events[i] == db.events[i];
      }
    }
  }

  /** DELETE /api/vote/:id. Unless the store throws (a 500, no change), the
      option is gone, `voteDeleted(id)` is broadcast and the confirmation is the
      200 response, whether or not the id existed; no voter is touched. */
  function DeleteStep(db: Db, variant: Variant, id: Id, storeThrows: bool): (out: Outcome)
    requires WellFormed(db)
    ensures WellFormed(out.db)
    ensures storeThrows ==> out == Outcome(db, ServerError)
    ensures !storeThrows ==>
      && out.db.options == db.options - {id}
      && id !in out.db.order
      && out.db.users == db.users
      && out.db.events == db.events + [VoteDeleted(id)]
      && out.response == Deleted(DeletedMessage, if variant == RootServer then Some(true) else None)
  {
    if storeThrows then Outcome(db, ServerError)
    else
      var db' := db.(options := db.options - {id}, order := Without(db.order, id),
                     events := db.events + [VoteDeleted(id)]);
      Outcome(db', Deleted(DeletedMessage, if variant == RootServer then Some(true) else None))
  }

  /** A cast on an id that is not stored changes no tally and yields null, yet
      still sets the caller's `votedFor` to that id and broadcasts the null. */
  lemma CastOnAbsentId(db: Db, caller: User, id: Id)
    requires WellFormed(db)
    requires caller.votedFor.None? && caller.id in db.users && id !in db.options
    ensures var out := CastStep(db, caller, id, NoFault);
      && out.db.options == db.options
      && out.db.users[caller.id].votedFor == Some(id)
      && out.db.events == db.events + [VoteUpdated(None)]
      && out.response == Voted(None, Some(out.db.users[caller.id]))
  {
    var out := CastStep(db, caller, id, NoFault);
    assert out.db.options.Keys == db.options.Keys;
  }

  // ------------------------------------------------------------------
  // The handlers as store writes in sequence
  // ------------------------------------------------------------------

  class VoteServer {
    const variant: Variant
    var options: map<Id, BallotOption>
    var order: seq<Id>
    var users: map<Id, User>
    var events: seq<Event>

    function State(): Db
      reads this
    {
      Db(options, order, users, events)
    }

    predicate Valid()
      reads this
    {
      WellFormed(State())
    }

    /** A server with no options and no broadcasts, over the registered users. */
    constructor (variant: Variant, registered: map<Id, User>)
      requires forall k :: k in registered ==> registered[k].id == k
      ensures Valid()
      ensures this.variant == variant
      ensures State() == Db(map[], [], registered, [])
    {
      this.variant := variant;
      options := map[];
      order := [];
      users := registered;
      events := [];
    }

    method CreateOption(caller: User, option: Option<string>, newId: Id, initialTally: nat, storeThrows: bool)
      returns (r: Response)
      requires Valid()
      modifies this
      ensures Valid()
      ensures Outcome(State(), r) == CreateStep(old(State()), caller, option, newId, initialTally, storeThrows)
    {
      ghost var out := CreateStep(State(), caller, option, newId, initialTally, storeThrows);
      if option.None? || option.value == "" {
        return BadRequest(OptionRequired);
      }
      if storeThrows || newId in options {
        return ServerError;
      }
      var created := BallotOption(newId, option.value, initialTally, CreatorId(caller.id));
      options := options[newId := created];
      order := order + [newId];
      events := events + [VoteCreated(created)];
      r := Created(created);
      assert State() == out.db;
    }

    method ListOptions(storeThrows: bool) returns (r: Response)
      requires Valid()
      ensures r == ListResponse(State(), storeThrows)
      ensures !storeThrows ==> r.Listed? && r.options == Populate(Listing(options, order), users)
    {
      if storeThrows {
        return ServerError;
      }
      r := Listed(Populate(Listing(options, order), users));
    }

    method CastVote(caller: User, id: Id, fault: CastFault) returns (r: Response)
      requires Valid()
      modifies this
      ensures Valid()
      ensures Outcome(State(), r) == CastStep(old(State()), caller, id, fault)
    {
      ghost var out := CastStep(State(), caller, id, fault);
      if caller.votedFor.Some? {
        return BadRequest(AlreadyVoted);
      }
      if fault == IncrementThrows {
        return ServerError;
      }
      var vote: Option<BallotOption> := None;
      if id in options {
        var bumped := options[id].(tally := options[id].tally + 1);
        options := options[id := bumped];
        vote := Some(bumped);
      }
      assert vote.Some? <==> id in old(options);
      if fault == UserUpdateThrows {
        assert State() == out.db;
        return ServerError;
      }
      var user: Option<User> := None;
      if caller.id in users {
        var updated := users[caller.id].(votedFor := Some(id));
        users := users[caller.id := updated];
        user := Some(updated);
      }
      events := events + [VoteUpdated(vote)];
      r := Voted(vote, user);
      assert State() == out.db;
    }

    method DeleteOption(id: Id, storeThrows: bool) returns (r: Response)
      requires Valid()
      modifies this
      ensures Valid()
      ensures Outcome(State(), r) == DeleteStep(old(State()), variant, id, storeThrows)
    {
      if storeThrows {
        return ServerError;
      }
      options := options - {id};
      order := Without(order, id);
      events := events + [VoteDeleted(id)];
      r := Deleted(DeletedMessage, if variant == RootServer then Some(true) else None);
    }
  }

  // ------------------------------------------------------------------
  // Requests run one after another
  // ------------------------------------------------------------------

  /** A request after the token has been verified to name `callerId`; the
      verdict of `isAdmin` is carried by the admin routes' requests. */
  datatype Request =
    | CreateRequest(callerId: Id, adminApproves: bool, option: Option<string>, newId: Id, initialTally: nat, storeThrows: bool)
    | ListRequest(storeThrows: bool)
    | CastRequest(callerId: Id, target: Id, fault: CastFault)
    | DeleteRequest(callerId: Id, adminApproves: bool, target: Id, storeThrows: bool)

  /** One request: `authenticate` re-loads the caller from the User collection
      (absent: 401 "User not found"), `isAdmin` guards the admin routes, then
      the handler runs. */
  function Step(db: Db, variant: Variant, req: Request): (out: Outcome)
    requires WellFormed(db)
    ensures WellFormed(out.db)
    ensures req.ListRequest? ==> out.db == db
    ensures req.CastRequest? && req.callerId in db.users ==>
      out == CastStep(db, db.users[req.callerId], req.target, req.fault)
  {
    match req
    case ListRequest(storeThrows) => Outcome(db, ListResponse(db, storeThrows))
    case CreateRequest(callerId, adminApproves, option, newId, initialTally, storeThrows) =>
      if callerId !in db.users then Outcome(db, Unauthorized(Auth.UserNotFound))
      else if !adminApproves then Outcome(db, NotAdmin)
      else CreateStep(db, db.users[callerId], option, newId, initialTally, storeThrows)
    case CastRequest(callerId, target, fault) =>
      if callerId !in db.users then Outcome(db, Unauthorized(Auth.UserNotFound))
      else CastStep(db, db.users[callerId], target, fault)
    case DeleteRequest(callerId, adminApproves, target, storeThrows) =>
      if callerId !in db.users then Outcome(db, Unauthorized(Auth.UserNotFound))
      else if !adminApproves then Outcome(db, NotAdmin)
      else DeleteStep(db, variant, target, storeThrows)
  }

  datatype Trace = Trace(db: Db, responses: seq<Response>)

  /** The requests served one at a time, in order. */
  function Run(db: Db, variant: Variant, reqs: seq<Request>): (t: Trace)
    requires WellFormed(db)
    ensures WellFormed(t.db)
    ensures |t.responses| == |reqs|
    decreases |reqs|
  {
    if reqs == [] then Trace(db, [])
    else
      var first := Step(db, variant, reqs[0]);
      var rest := Run(first.db, variant, reqs[1..]);
      Trace(rest.db, [first.response] + rest.responses)
  }

  predicate HasVoted(db: Db, voter: Id)
  {
    voter in db.users && db.users[voter].votedFor.Some?
  }

  predicate IsSuccessfulCast(req: Request, resp: Response, voter: Id)
  {
    req.CastRequest? && req.callerId == voter && resp.Voted?
  }

  /** How many of the requests are casts by `voter` answered 200. */
  function SuccessfulCasts(reqs: seq<Request>, responses: seq<Response>, voter: Id): nat
    requires |reqs| == |responses|
    decreases |reqs|
  {
    if reqs == [] then 0
    else (if IsSuccessfulCast(reqs[0], responses[0], voter) then 1 else 0)
         + SuccessfulCasts(reqs[1..], responses[1..], voter)
  }

  /** Once a voter's `votedFor` is set, no request changes their record, and a
      cast by them is answered 400 "You have already voted". */
  lemma StepKeepsRecordedVote(db: Db, variant: Variant, req: Request, voter: Id)
    requires WellFormed(db) && HasVoted(db, voter)
    ensures var out := Step(db, variant, req);
      && voter in out.db.users && out.db.users[voter] == db.users[voter]
      && (req.CastRequest? && req.callerId == voter ==> out.response == BadRequest(AlreadyVoted))
  {
  }

  /** A cast answered 200 leaves the caller's `votedFor` set to its target. */
  lemma SuccessfulCastRecordsVote(db: Db, variant: Variant, req: Request)
    requires WellFormed(db)
    requires req.CastRequest? && Step(db, variant, req).response.Voted?
    ensures HasVoted(Step(db, variant, req).db, req.callerId)
    ensures Step(db, variant, req).db.users[req.callerId].votedFor == Some(req.target)
  {
  }

  /** After a voter has voted, every later cast of theirs is rejected and their
      record never changes again. */
  lemma {:induction false} RejectedOnceVoted(db: Db, variant: Variant, reqs: seq<Request>, voter: Id)
    requires WellFormed(db) && HasVoted(db, voter)
    ensures var t := Run(db, variant, reqs);
      && voter in t.db.users && t.db.users[voter] == db.users[voter]
      && forall i :: 0 <= i < |reqs| && reqs[i].CastRequest? && reqs[i].callerId == voter ==>
           t.responses[i] == BadRequest(AlreadyVoted)
    decreases |reqs|
  {
    if reqs != [] {
      var first := Step(db, variant, reqs[0]);
      StepKeepsRecordedVote(db, variant, reqs[0], voter);
      RejectedOnceVoted(first.db, variant, reqs[1..], voter);
      var t := Run(db, variant, reqs);
      var rest := Run(first.db, variant, reqs[1..]);
      forall i | 0 <= i < |reqs| && reqs[i].CastRequest? && reqs[i].callerId == voter
        ensures t.responses[i] == BadRequest(AlreadyVoted)
      {
        if i > 0 {
          assert t.responses[i] == rest.responses[i - 1];
          assert reqs[1..][i - 1] == reqs[i];
        }
      }
    }
  }

  /** Served one at a time, a voter's casts succeed at most once, and not at
      all if they had already voted. */
  lemma {:induction false} AtMostOneSuccessfulCast(db: Db, variant: Variant, reqs: seq<Request>, voter: Id)
    requires WellFormed(db)
    ensures SuccessfulCasts(reqs, Run(db, variant, reqs).responses, voter) <= 1
    ensures HasVoted(db, voter) ==> SuccessfulCasts(reqs, Run(db, variant, reqs).responses, voter) == 0
    decreases |reqs|
  {
    if reqs != [] {
      var first := Step(db, variant, reqs[0]);
      var t := Run(db, variant, reqs);
      var rest := Run(first.db, variant, reqs[1..]);
      assert t.responses[0] == first.response;
      assert t.responses[1..] == rest.responses;
      AtMostOneSuccessfulCast(first.db, variant, reqs[1..], voter);
      if HasVoted(db, voter) {
        StepKeepsRecordedVote(db, variant, reqs[0], voter);
      } else if IsSuccessfulCast(reqs[0], first.response, voter) {
        SuccessfulCastRecordsVote(db, variant, reqs[0]);
      }
    }
  }
}
