/** The voter's page (frontend/src/components/HomePage.jsx): the state update
    after a vote, the rules for each option's vote button, and the creator line
    of each card. */
module Home {
  import opened Types
  import opened VoteLists
  import ClientApp
  import Server

  /** `disabled={!user || !!user?.votedFor}`; the `disabled` class name uses the
      same condition. */
  predicate ButtonDisabled(user: Option<User>)
  {
    user.None? || user.value.votedFor.Some?
  }

  /** `vote?._id === user?.votedFor ? "Voted" : "Vote"`. */
  function ButtonLabel(option: BallotOption, user: Option<User>): (text: string)
    ensures text == "Voted" || text == "Vote"
    ensures text == "Voted" <==> user.Some? && user.value.votedFor == Some(option.id)
  {
    if user.Some? && user.value.votedFor == Some(option.id) then "Voted" else "Vote"
  }

  /** The JSON body `{ vote, user }` of a 200 answer to POST /api/vote/:id. */
  datatype VotePayload = VotePayload(vote: Option<BallotOption>, user: Option<User>)

  /** `handleVote` after the awaited response: a failure leaves both cells
      alone; a success replaces the entry with the returned option's id and
      makes the returned user (possibly null) the signed-in user. */
  method HandleVote(app: ClientApp.AppState, reply: Reply<VotePayload>)
    modifies app`votes, app`user
    ensures reply.Failed? ==> app.votes == old(app.votes) && app.user == old(app.user)
    ensures reply.Succeeded? ==> app.votes == ReplaceById(old(app.votes), reply.data.vote)
    ensures reply.Succeeded? ==> app.user == reply.data.user
  {
    if reply.Failed? {
      return;
    }
    app.votes := ReplaceById(app.votes, reply.data.vote);
    app.user := reply.data.user;
  }

  /** An enabled button means the server accepts the cast, provided the
      page's copy of the user is the document `authenticate` loads for the
      request. */
  lemma EnabledButtonIsAccepted(db: Server.Db, variant: Server.Variant, user: User, id: Id)
    requires Server.WellFormed(db)
    requires user.id in db.users && db.users[user.id] == user
    requires !ButtonDisabled(Some(user))
    ensures Server.Step(db, variant, Server.CastRequest(user.id, id, Server.NoFault)).response.Voted?
  {
  }

  /** The page's copy of the user is not re-read after sign-in: once the
      stored user has voted (from another tab, say) the stale copy still shows
      the button enabled, and the server refuses the cast. */
  lemma StaleCopyRejected(db: Server.Db, variant: Server.Variant, user: User, id: Id, fault: Server.CastFault)
    requires Server.WellFormed(db)
    requires user.id in db.users && user.votedFor.None? && db.users[user.id].votedFor.Some?
    ensures !ButtonDisabled(Some(user))
    ensures Server.Step(db, variant, Server.CastRequest(user.id, id, fault)).response == Server.BadRequest(Server.AlreadyVoted)
  {
  }

  /** A user whose stored `votedFor` is set is refused any cast, and a page
      whose copy of that user is current shows every button disabled. */
  lemma DisabledButtonIsRejected(db: Server.Db, variant: Server.Variant, userId: Id, id: Id, fault: Server.CastFault)
    requires Server.WellFormed(db)
    requires userId in db.users && db.users[userId].votedFor.Some?
    ensures ButtonDisabled(Some(db.users[userId]))
    ensures Server.Step(db, variant, Server.CastRequest(userId, id, fault)).response == Server.BadRequest(Server.AlreadyVoted)
  {
  }

  /** After a successful cast the page shows the returned user: every button
      is disabled, and exactly the options with the chosen id read "Voted". */
  lemma ButtonsAfterVoting(db: Server.Db, user: User, id: Id, option: BallotOption)
    requires Server.WellFormed(db)
    requires user.votedFor.None? && user.id in db.users
    ensures var r := Server.CastStep(db, user, id, Server.NoFault).response;
      && r.Voted?
      && ButtonDisabled(r.user)
      && (ButtonLabel(option, r.user) == "Voted" <==> option.id == id)
  {
    var out := Server.CastStep(db, user, id, Server.NoFault);
    assert out.db.users[user.id] == db.users[user.id].(votedFor := Some(id));
  }

  /** The voter's own client receives the same option twice, in the HTTP
      answer and in the `voteUpdated` broadcast; in either order the list ends
      up as after one of them. */
  lemma OwnVoteSeenTwice(list: seq<BallotOption>, vote: Option<BallotOption>)
    ensures ApplyEvent(ReplaceById(list, vote), VoteUpdated(vote)) == ReplaceById(list, vote)
    ensures ReplaceById(ApplyEvent(list, VoteUpdated(vote)), vote) == ReplaceById(list, vote)
  {
    ReplaceIdempotent(list, vote);
  }

  /** `vote.createdBy?.email`: the creator line of a card shows an email only
      for a populated creator. */
  function CreatorEmail(o: BallotOption): (e: Option<string>)
    ensures e.Some? <==> o.createdBy.CreatorDoc?
    ensures e.Some? ==> e.value == o.createdBy.email
  {
    match o.createdBy
    case CreatorDoc(_, email) => Some(email)
    case _ => None
  }

  /** After a cast, the card of the voted option loses its creator line on
      every page that applies the `voteUpdated` broadcast, while a fresh GET
      would show the creator's email. */
  lemma BroadcastCardLosesCreator(db: Server.Db, caller: User, i: nat)
    requires Server.WellFormed(db)
    requires caller.votedFor.None?
    requires i < |db.order|
    requires db.options[db.order[i]].createdBy.id in db.users
    ensures var out := Server.CastStep(db, caller, db.order[i], Server.NoFault);
      var client := ApplyEvent(Server.GetListing(db), out.db.events[|db.events|]);
      var creator := db.options[db.order[i]].createdBy.id;
      && CreatorEmail(client[i]) == None
      && CreatorEmail(Server.GetListing(out.db)[i]) == Some(db.users[creator].email)
  {
    var id := db.order[i];
    var out := Server.CastStep(db, caller, id, Server.NoFault);
    var sent := out.db.options[id];
    assert out.db.events[|db.events|] == VoteUpdated(Some(sent));
    var before := Server.GetListing(db);
    assert before[i].id == id;
    var client := ReplaceById(before, Some(sent));
    assert client[i] == sent;
    assert Server.ListingOf(out.db)[i] == sent;
  }
}
