/** The list transforms the React client applies to its copy of the ballot:
    replace-by-id (`map`), append (spread) and remove-by-id (`filter`), and the
    socket handlers of frontend/src/App.js built from them. */
module VoteLists {
  import opened Types

  /** `prev.map((v) => (v?._id === updated?._id ? updated : v))`. A null update
      has no `_id`, so no entry matches it. */
  function ReplaceById(list: seq<BallotOption>, updated: Option<BallotOption>): (r: seq<BallotOption>)
    ensures |r| == |list|
    ensures forall i :: 0 <= i < |list| && updated.Some? && list[i].id == updated.value.id ==> r[i] == updated.value
    ensures forall i :: 0 <= i < |list| && (updated.None? || list[i].id != updated.value.id) ==> r[i] == list[i]
  {
    if list == [] then []
    else
      var head := if updated.Some? && list[0].id == updated.value.id then updated.value else list[0];
      [head] + ReplaceById(list[1..], updated)
  }

  /** An update for an id the list does not hold (or a null update) changes nothing. */
  lemma {:induction false} ReplaceAbsentIsIdentity(list: seq<BallotOption>, updated: Option<BallotOption>)
    requires updated.Some? ==> forall i :: 0 <= i < |list| ==> list[i].id != updated.value.id
    ensures ReplaceById(list, updated) == list
  {
  }

  /** Applying the same update twice is applying it once. */
  lemma {:induction false} ReplaceIdempotent(list: seq<BallotOption>, updated: Option<BallotOption>)
    ensures ReplaceById(ReplaceById(list, updated), updated) == ReplaceById(list, updated)
  {
    var once := ReplaceById(list, updated);
    var twice := ReplaceById(once, updated);
    forall i | 0 <= i < |list|
      ensures twice[i] == once[i]
    {
    }
  }

  /** `prev.filter((item) => item._id !== id)`. */
  function RemoveById(list: seq<BallotOption>, id: Id): (r: seq<BallotOption>)
    ensures |r| <= |list|
    ensures forall x :: x in r <==> x in list && x.id != id
  {
    if list == [] then []
    else if list[0].id == id then RemoveById(list[1..], id)
    else [list[0]] + RemoveById(list[1..], id)
  }

  /** Filtering works piecewise, so the surviving entries keep their order. */
  lemma {:induction false} RemoveDistributes(a: seq<BallotOption>, b: seq<BallotOption>, id: Id)
    ensures RemoveById(a + b, id) == RemoveById(a, id) + RemoveById(b, id)
    decreases |a|
  {
    if a == [] {
      assert a + b == b;
    } else {
      assert (a + b)[0] == a[0];
      assert (a + b)[1..] == a[1..] + b;
      RemoveDistributes(a[1..], b, id);
    }
  }

  /** Removing an id the list does not hold changes nothing. */
  lemma {:induction false} RemoveAbsentIsIdentity(list: seq<BallotOption>, id: Id)
    requires forall i :: 0 <= i < |list| ==> list[i].id != id
    ensures RemoveById(list, id) == list
    decreases |list|
  {
    if list != [] {
      RemoveAbsentIsIdentity(list[1..], id);
      assert [list[0]] + list[1..] == list;
    }
  }

  /** Removing the same id twice is removing it once. */
  lemma RemoveIdempotent(list: seq<BallotOption>, id: Id)
    ensures RemoveById(RemoveById(list, id), id) == RemoveById(list, id)
  {
    var once := RemoveById(list, id);
    forall i | 0 <= i < |once|
      ensures once[i].id != id
    {
      assert once[i] in once;
    }
    RemoveAbsentIsIdentity(once, id);
  }

  /** The three socket handlers: `voteUpdated` replaces by id, `voteCreated`
      appends at the end, `voteDeleted` filters the id out. */
  function ApplyEvent(list: seq<BallotOption>, e: Event): (r: seq<BallotOption>)
    ensures e.VoteCreated? ==> |r| == |list| + 1 && r[..|list|] == list && r[|list|] == e.created
    ensures e.VoteUpdated? ==> |r| == |list|
  {
    match e
    case VoteUpdated(updated) => ReplaceById(list, updated)
    case VoteCreated(created) => list + [created]
    case VoteDeleted(id) => RemoveById(list, id)
  }

  /** The list a client holds after it has received `events` in order. */
  function ApplyEvents(list: seq<BallotOption>, events: seq<Event>): (r: seq<BallotOption>)
    ensures (forall i :: 0 <= i < |events| ==> events[i].VoteUpdated?) ==> |r| == |list|
    ensures (forall i :: 0 <= i < |events| ==> events[i].VoteCreated?) ==> |r| == |list| + |events|
    ensures (forall i :: 0 <= i < |events| ==> !events[i].VoteCreated?) ==> |r| <= |list|
    decreases |events|
  {
    if events == [] then list else ApplyEvents(ApplyEvent(list, events[0]), events[1..])
  }

  /** Receiving `a` and then `b` is receiving `a + b`. */
  lemma {:induction false} ApplyEventsAppend(list: seq<BallotOption>, a: seq<Event>, b: seq<Event>)
    ensures ApplyEvents(list, a + b) == ApplyEvents(ApplyEvents(list, a), b)
    decreases |a|
  {
    if a == [] {
      assert a + b == b;
    } else {
      assert (a + b)[0] == a[0];
      assert (a + b)[1..] == a[1..] + b;
      ApplyEventsAppend(ApplyEvent(list, a[0]), a[1..], b);
    }
  }

  /** The append as evidently intended for a record that two channels deliver:
      an option whose id is already listed replaces its entry instead of being
      listed a second time. */
  function AppendOnce(list: seq<BallotOption>, created: BallotOption): (r: seq<BallotOption>)
    ensures (forall i :: 0 <= i < |list| ==> list[i].id != created.id) ==> r == list + [created]
    ensures (exists i :: 0 <= i < |list| && list[i].id == created.id) ==> r == ReplaceById(list, Some(created))
  {
    if exists i :: 0 <= i < |list| && list[i].id == created.id then ReplaceById(list, Some(created))
    else list + [created]
  }
}
