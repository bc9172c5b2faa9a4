/** How the clients' copies of the ballot track the server. A client that holds
    the GET /api/votes listing and applies the socket handlers of
    frontend/src/App.js to every broadcast that follows holds the server's
    listing again — except after a cast whose second store call threw, which
    changed a tally without broadcasting anything. */
module Consistency {
  import opened Types
  import opened Server
  import opened VoteLists

  /** The keys of `order` are stored, each under its own id. */
  predicate Indexed(options: map<Id, BallotOption>, order: seq<Id>)
  {
    && (forall k :: k in order ==> k in options)
    && (forall k :: k in options ==> options[k].id == k)
  }

  /** An increment on the server is a replace-by-id on the listing. */
  lemma ListingAfterIncrement(options: map<Id, BallotOption>, order: seq<Id>, bumped: BallotOption)
    requires Indexed(options, order)
    ensures Listing(options[bumped.id := bumped], order) == ReplaceById(Listing(options, order), Some(bumped))
  {
    var l := Listing(options[bumped.id := bumped], order);
    var r := ReplaceById(Listing(options, order), Some(bumped));
    forall i | 0 <= i < |order|
      ensures l[i] == r[i]
    {
      assert Listing(options, order)[i].id == order[i];
    }
  }

  /** A delete on the server is a filter-by-id on the listing. */
  lemma {:induction false} ListingAfterDelete(options: map<Id, BallotOption>, order: seq<Id>, id: Id)
    requires Indexed(options, order)
    ensures forall k :: k in Without(order, id) ==> k in options - {id}
    ensures Listing(options - {id}, Without(order, id)) == RemoveById(Listing(options, order), id)
    decreases |order|
  {
    if order != [] {
      var rest := order[1..];
      ListingAfterDelete(options, rest, id);
      var l := Listing(options, order);
      assert l == [options[order[0]]] + Listing(options, rest);
      assert l[1..] == Listing(options, rest);
      assert l[0].id == order[0];
    }
  }

  /** The event log only grows, and a client that applies the new events to
      the old listing obtains the new listing. */
  predicate ObserversKeepUp(before: Db, after: Db)
    requires WellFormed(before) && WellFormed(after)
  {
    && |before.events| <= |after.events|
    && after.events[..|before.events|] == before.events
    && ApplyEvents(ListingOf(before), after.events[|before.events|..]) == ListingOf(after)
  }

  /** A request other than a cast whose user update throws. */
  predicate CompleteOrUntouched(req: Request)
  {
    !(req.CastRequest? && req.fault == UserUpdateThrows)
  }

  /** A request that changes nothing leaves observers in step. */
  lemma UnchangedKeepsUp(db: Db)
    requires WellFormed(db)
    ensures ObserversKeepUp(db, db)
  {
    assert db.events[|db.events|..] == [];
  }

  /** A create either changes nothing or broadcasts the option it appended. */
  lemma CreateKeepsObservers(db: Db, caller: User, option: Option<string>, newId: Id, initialTally: nat, storeThrows: bool)
    requires WellFormed(db)
    ensures ObserversKeepUp(db, CreateStep(db, caller, option, newId, initialTally, storeThrows).db)
  {
    var out := CreateStep(db, caller, option, newId, initialTally, storeThrows);
    if out.response.Created? {
      assert out.db.events[|db.events|..] == [VoteCreated(out.response.created)];
    } else {
      UnchangedKeepsUp(db);
    }
  }

  /** A cast whose user update does not throw either changes nothing or
      broadcasts the option it incremented (null for an absent id). */
  lemma CastKeepsObservers(db: Db, caller: User, id: Id, fault: CastFault)
    requires WellFormed(db)
    requires fault != UserUpdateThrows
    ensures ObserversKeepUp(db, CastStep(db, caller, id, fault).db)
  {
    var out := CastStep(db, caller, id, fault);
    if out.response.Voted? {
      var vote := Lookup(out.db.options, id);
      assert out.db.events[|db.events|..] == [VoteUpdated(vote)];
      if id in db.options {
        ListingAfterIncrement(db.options, db.order, vote.value);
        assert out.db.options == db.options[id := vote.value];
      } else {
        assert out.db.options == db.options;
        ReplaceAbsentIsIdentity(ListingOf(db), vote);
      }
    } else {
      UnchangedKeepsUp(db);
    }
  }

  /** A delete either changes nothing or broadcasts the id it filtered out. */
  lemma DeleteKeepsObservers(db: Db, variant: Variant, id: Id, storeThrows: bool)
    requires WellFormed(db)
    ensures ObserversKeepUp(db, DeleteStep(db, variant, id, storeThrows).db)
  {
    var out := DeleteStep(db, variant, id, storeThrows);
    if storeThrows {
      UnchangedKeepsUp(db);
    } else {
      assert out.db.events[|db.events|..] == [VoteDeleted(id)];
      ListingAfterDelete(db.options, db.order, id);
      assert out.db.order == Without(db.order, id);
    }
  }

  /** Every request but a half-done cast either changes nothing or broadcasts
      exactly what it changed. */
  lemma StepKeepsObserversInStep(db: Db, variant: Variant, req: Request)
    requires WellFormed(db)
    requires CompleteOrUntouched(req)
    ensures ObserversKeepUp(db, Step(db, variant, req).db)
  {
    match req
    case ListRequest(_) =>
      UnchangedKeepsUp(db);
    case CreateRequest(callerId, adminApproves, option, newId, initialTally, storeThrows) =>
      if callerId !in db.users || !adminApproves {
        UnchangedKeepsUp(db);
      } else {
        CreateKeepsObservers(db, db.users[callerId], option, newId, initialTally, storeThrows);
      }
    case CastRequest(callerId, target, fault) =>
      if callerId !in db.users {
        UnchangedKeepsUp(db);
      } else {
        CastKeepsObservers(db, db.users[callerId], target, fault);
      }
    case DeleteRequest(callerId, adminApproves, target, storeThrows) =>
      if callerId !in db.users || !adminApproves {
        UnchangedKeepsUp(db);
      } else {
        DeleteKeepsObservers(db, variant, target, storeThrows);
      }
  }

  /** Prefixes chain, and the part added over both steps is the two additions
      one after the other. */
  lemma PrefixChain(x: seq<Event>, y: seq<Event>, z: seq<Event>)
    requires |x| <= |y| && y[..|x|] == x
    requires |y| <= |z| && z[..|y|] == y
    ensures z[..|x|] == x
    ensures z[|x|..] == y[|x|..] + z[|y|..]
  {
    assert z[..|x|] == z[..|y|][..|x|];
    assert z[|x|..] == z[|x|..|y|] + z[|y|..];
    assert z[|x|..|y|] == z[..|y|][|x|..];
  }

  /** Sequential runs without half-done casts keep every observer that saw the
      first listing and all later broadcasts in agreement with the server. */
  lemma {:induction false} ReplayMatchesServer(db: Db, variant: Variant, reqs: seq<Request>)
    requires WellFormed(db)
    requires forall i :: 0 <= i < |reqs| ==> CompleteOrUntouched(reqs[i])
    ensures ObserversKeepUp(db, Run(db, variant, reqs).db)
    decreases |reqs|
  {
    if reqs == [] {
      assert db.events[|db.events|..] == [];
    } else {
      var mid := Step(db, variant, reqs[0]).db;
      var last := Run(mid, variant, reqs[1..]).db;
      assert Run(db, variant, reqs).db == last;
      StepKeepsObserversInStep(db, variant, reqs[0]);
      ReplayMatchesServer(mid, variant, reqs[1..]);
      var a := mid.events[|db.events|..];
      var b := last.events[|mid.events|..];
      PrefixChain(db.events, mid.events, last.events);
      ApplyEventsAppend(ListingOf(db), a, b);
    }
  }

  /** A cast whose user update throws has already bumped the tally but sends no
      broadcast, so observers no longer see the server's listing. */
  lemma HalfDoneCastLeavesObserversBehind(db: Db, caller: User, id: Id)
    requires WellFormed(db)
    requires caller.votedFor.None? && id in db.options
    ensures var out := CastStep(db, caller, id, UserUpdateThrows);
      && out.response == ServerError
      && out.db.events == db.events
      && ApplyEvents(ListingOf(db), out.db.events[|db.events|..]) != ListingOf(out.db)
  {
    var out := CastStep(db, caller, id, UserUpdateThrows);
    assert out.db.events[|db.events|..] == [];
    var i :| 0 <= i < |db.order| && db.order[i] == id;
    assert ListingOf(out.db)[i].tally == ListingOf(db)[i].tally + 1;
  }

  // ------------------------------------------------------------------
  // The GET listing, which populates the creator
  // ------------------------------------------------------------------

  /** Every stored option names a registered user as its creator. */
  predicate CreatorsRegistered(db: Db)
  {
    forall k :: k in db.options ==> db.options[k].createdBy.CreatorId? && db.options[k].createdBy.id in db.users
  }

  /** Forgets what `populate` added: a populated creator becomes its id again. */
  function DepopulateOne(o: BallotOption): (r: BallotOption)
    ensures r.id == o.id && r.option == o.option && r.tally == o.tally
    ensures o.createdBy.CreatorDoc? ==> r.createdBy == CreatorId(o.createdBy.id)
    ensures !o.createdBy.CreatorDoc? ==> r == o
  {
    if o.createdBy.CreatorDoc? then o.(createdBy := CreatorId(o.createdBy.id)) else o
  }

  function Depopulate(list: seq<BallotOption>): (r: seq<BallotOption>)
    ensures |r| == |list|
    ensures forall i :: 0 <= i < |list| ==> r[i] == DepopulateOne(list[i])
  {
    seq(|list|, i requires 0 <= i < |list| => DepopulateOne(list[i]))
  }

  /** With every creator registered, the GET listing is the stored listing with
      each creator populated, and nothing else. */
  lemma DepopulateGetListing(db: Db)
    requires WellFormed(db) && CreatorsRegistered(db)
    ensures Depopulate(GetListing(db)) == ListingOf(db)
  {
    var l := ListingOf(db);
    forall i | 0 <= i < |l|
      ensures Depopulate(GetListing(db))[i] == l[i]
    {
      assert l[i] == db.options[db.order[i]];
    }
  }

  lemma {:induction false} DepopulateRemove(list: seq<BallotOption>, id: Id)
    ensures Depopulate(RemoveById(list, id)) == RemoveById(Depopulate(list), id)
    decreases |list|
  {
    if list != [] {
      DepopulateRemove(list[1..], id);
      var d := Depopulate(list);
      assert d[1..] == Depopulate(list[1..]);
      assert d[0].id == list[0].id;
      if list[0].id != id {
        var rest := RemoveById(list[1..], id);
        assert Depopulate([list[0]] + rest) == [d[0]] + Depopulate(rest);
      }
    }
  }

  /** Forgetting the populated creators commutes with each socket handler, as
      long as the broadcast document is itself unpopulated. */
  lemma DepopulateCommutes(list: seq<BallotOption>, e: Event)
    requires Unpopulated(e)
    ensures Depopulate(ApplyEvent(list, e)) == ApplyEvent(Depopulate(list), e)
  {
    match e
    case VoteCreated(o) =>
      assert Depopulate(list + [o]) == Depopulate(list) + [o];
    case VoteUpdated(u) =>
      var l := Depopulate(ReplaceById(list, u));
      var r := ReplaceById(Depopulate(list), u);
      forall i | 0 <= i < |list|
        ensures l[i] == r[i]
      {
      }
    case VoteDeleted(id) =>
      DepopulateRemove(list, id);
  }

  lemma {:induction false} DepopulateCommutesAll(list: seq<BallotOption>, events: seq<Event>)
    requires forall i :: 0 <= i < |events| ==> Unpopulated(events[i])
    ensures Depopulate(ApplyEvents(list, events)) == ApplyEvents(Depopulate(list), events)
    decreases |events|
  {
    if events != [] {
      DepopulateCommutes(list, events[0]);
      DepopulateCommutesAll(ApplyEvent(list, events[0]), events[1..]);
    }
  }

  /** A create names the caller as creator. */
  lemma CreateKeepsCreatorsRegistered(db: Db, caller: User, option: Option<string>, newId: Id, initialTally: nat, storeThrows: bool)
    requires WellFormed(db) && CreatorsRegistered(db)
    requires caller.id in db.users
    ensures CreatorsRegistered(CreateStep(db, caller, option, newId, initialTally, storeThrows).db)
  {
  }

  /** A cast changes no creator and removes no user. */
  lemma CastKeepsCreatorsRegistered(db: Db, caller: User, id: Id, fault: CastFault)
    requires WellFormed(db) && CreatorsRegistered(db)
    ensures CreatorsRegistered(CastStep(db, caller, id, fault).db)
  {
    var c := CastStep(db, caller, id, fault);
    assert c.db.users.Keys == db.users.Keys;
    forall k | k in c.db.options
      ensures c.db.options[k].createdBy == db.options[k].createdBy
    {
    }
  }

  /** No request unregisters a creator: users are never removed, and a create
      names the reloaded caller. */
  lemma StepKeepsCreatorsRegistered(db: Db, variant: Variant, req: Request)
    requires WellFormed(db) && CreatorsRegistered(db)
    ensures CreatorsRegistered(Step(db, variant, req).db)
  {
    match req
    case ListRequest(_) =>
    case CreateRequest(callerId, adminApproves, option, newId, initialTally, storeThrows) =>
      if callerId in db.users && adminApproves {
        CreateKeepsCreatorsRegistered(db, db.users[callerId], option, newId, initialTally, storeThrows);
      }
    case CastRequest(callerId, target, fault) =>
      if callerId in db.users {
        CastKeepsCreatorsRegistered(db, db.users[callerId], target, fault);
      }
    case DeleteRequest(_, _, _, _) =>
  }

  lemma {:induction false} RunKeepsCreatorsRegistered(db: Db, variant: Variant, reqs: seq<Request>)
    requires WellFormed(db) && CreatorsRegistered(db)
    ensures CreatorsRegistered(Run(db, variant, reqs).db)
    decreases |reqs|
  {
    if reqs != [] {
      var mid := Step(db, variant, reqs[0]).db;
      StepKeepsCreatorsRegistered(db, variant, reqs[0]);
      RunKeepsCreatorsRegistered(mid, variant, reqs[1..]);
      assert Run(db, variant, reqs).db == Run(mid, variant, reqs[1..]).db;
    }
  }

  /** A client that fetched the GET listing and applied every later broadcast
      holds, after any sequential run without half-done casts, the server's
      stored listing, and so the server's GET listing up to the populated
      creators. */
  lemma ClientCopyMatchesServer(db: Db, variant: Variant, reqs: seq<Request>)
    requires WellFormed(db) && CreatorsRegistered(db)
    requires forall i :: 0 <= i < |reqs| ==> CompleteOrUntouched(reqs[i])
    ensures var after := Run(db, variant, reqs).db;
      && |db.events| <= |after.events|
      && Depopulate(ApplyEvents(GetListing(db), after.events[|db.events|..])) == ListingOf(after)
      && Depopulate(GetListing(after)) == ListingOf(after)
  {
    var after := Run(db, variant, reqs).db;
    ReplayMatchesServer(db, variant, reqs);
    RunKeepsCreatorsRegistered(db, variant, reqs);
    DepopulateGetListing(db);
    DepopulateGetListing(after);
    var added := after.events[|db.events|..];
    forall i | 0 <= i < |added|
      ensures Unpopulated(added[i])
    {
      assert added[i] == after.events[|db.events| + i];
    }
    DepopulateCommutesAll(GetListing(db), added);
  }

  /** `PopulateOne` reads only the users' ids and emails. */
  lemma PopulateReadsEmails(o: BallotOption, before: map<Id, User>, after: map<Id, User>)
    requires before.Keys == after.Keys
    requires forall k :: k in before ==> before[k].email == after[k].email
    ensures PopulateOne(o, before) == PopulateOne(o, after)
  {
  }

  /** Replacing one document of a populated listing by its populated new
      version gives the populated listing of the updated store, when the users
      keep their ids and emails. */
  lemma ReplacePopulated(options: map<Id, BallotOption>, order: seq<Id>, users: map<Id, User>,
                         options': map<Id, BallotOption>, users': map<Id, User>, id: Id)
    requires Indexed(options, order)
    requires options'.Keys == options.Keys
    requires forall k :: k in options && k != id ==> options'[k] == options[k]
    requires id in options ==> options'[id].id == id
    requires users'.Keys == users.Keys
    requires forall k :: k in users ==> users[k].email == users'[k].email
    ensures var sent := if id in options' then Some(PopulateOne(options'[id], users')) else None;
      ReplaceById(Populate(Listing(options, order), users), sent) == Populate(Listing(options', order), users')
  {
    var sent := if id in options' then Some(PopulateOne(options'[id], users')) else None;
    var before := Populate(Listing(options, order), users);
    var l := ReplaceById(before, sent);
    var r := Populate(Listing(options', order), users');
    forall j | 0 <= j < |order|
      ensures l[j] == r[j]
    {
      var k := order[j];
      assert before[j] == PopulateOne(options[k], users);
      PopulateReadsEmails(options'[k], users, users');
    }
  }

  /** Were the cast to broadcast its document populated, the client's copy of
      the GET listing would stay exactly the GET listing. */
  lemma PopulatedCastKeepsListing(db: Db, caller: User, id: Id)
    requires WellFormed(db)
    ensures var out := CastStep(db, caller, id, NoFault);
      var v := Lookup(out.db.options, id);
      var sent := if v.Some? then Some(PopulateOne(v.value, out.db.users)) else None;
      out.response.Voted? ==> ApplyEvent(GetListing(db), VoteUpdated(sent)) == GetListing(out.db)
  {
    var out := CastStep(db, caller, id, NoFault);
    if out.response.Voted? {
      assert TallyBumpedOnly(db.options, out.db.options, id);
      assert VotedForSetOnly(db.users, out.db.users, caller.id, id);
      ReplacePopulated(db.options, db.order, db.users, out.db.options, out.db.users, id);
    }
  }

  /** Were the create to broadcast its document populated, the client's copy of
      the GET listing would stay exactly the GET listing. */
  lemma PopulatedCreateKeepsListing(db: Db, caller: User, option: Option<string>, newId: Id, initialTally: nat)
    requires WellFormed(db)
    ensures var c := CreateStep(db, caller, option, newId, initialTally, false);
      c.response.Created? ==>
        ApplyEvent(GetListing(db), VoteCreated(PopulateOne(c.response.created, c.db.users))) == GetListing(c.db)
  {
    var c := CreateStep(db, caller, option, newId, initialTally, false);
    if c.response.Created? {
      var o := c.response.created;
      assert GetListing(c.db) == Populate(ListingOf(db) + [o], db.users);
      assert Populate(ListingOf(db) + [o], db.users) == GetListing(db) + [PopulateOne(o, db.users)];
    }
  }
}
