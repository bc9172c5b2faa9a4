/** The admin page (frontend/src/components/AdminPanel.jsx): the input cell,
    adding an option and deleting one. Both handlers write a list computed from
    the `votes` prop of the render in which the button was clicked, passed here
    as `rendered`. */
module Admin {
  import opened Types
  import opened VoteLists
  import JsString
  import ClientApp

  class AdminPanel {
    var newOption: string

    constructor ()
      ensures newOption == ""
    {
      newOption := "";
    }

    /** The input's `onChange`. */
    method SetNewOption(text: string)
      modifies this
      ensures newOption == text
    {
      newOption := text;
    }

    /** `handleAddOption`. Input that is empty or white space after `trim()`
        sends nothing and changes nothing; otherwise the untrimmed input is
        sent; a failure leaves the list and the input alone; a success writes
        the rendered list with the returned record appended and clears the
        input. */
    method HandleAddOption(app: ClientApp.AppState, rendered: seq<BallotOption>, reply: Reply<BallotOption>)
      returns (sent: Option<string>)
      modifies this, app`votes
      ensures JsString.AllWhiteSpace(old(newOption)) ==>
        sent.None? && newOption == old(newOption) && app.votes == old(app.votes)
      ensures !JsString.AllWhiteSpace(old(newOption)) ==> sent == Some(old(newOption))
      ensures !JsString.AllWhiteSpace(old(newOption)) && reply.Failed? ==>
        newOption == old(newOption) && app.votes == old(app.votes)
      ensures !JsString.AllWhiteSpace(old(newOption)) && reply.Succeeded? ==>
        newOption == "" && app.votes == rendered + [reply.data]
    {
      JsString.TrimEmptyIffBlank(newOption);
      if JsString.Trim(newOption) == "" {
        return None;
      }
      sent := Some(newOption);
      if reply.Failed? {
        return;
      }
      app.votes := rendered + [reply.data];
      newOption := "";
    }

    /** `handleDeleteOption`: a failure leaves the list alone; a success writes
        the rendered list without the entries carrying that id. */
    method HandleDeleteOption(app: ClientApp.AppState, rendered: seq<BallotOption>, id: Id, reply: Reply<()>)
      modifies app`votes
      ensures reply.Failed? ==> app.votes == old(app.votes)
      ensures reply.Succeeded? ==> app.votes == RemoveById(rendered, id)
    {
      if reply.Failed? {
        return;
      }
      app.votes := RemoveById(rendered, id);
    }
  }

  /** The server broadcasts `voteCreated` and answers 201 on two channels. When
      the admin's client handles the answer first, its `voteCreated` handler
      appends the same option again: the admin sees it twice, though the server
      lists it once. */
  lemma OwnCreationListedTwice(rendered: seq<BallotOption>, created: BallotOption)
    requires forall i :: 0 <= i < |rendered| ==> rendered[i].id != created.id
    ensures ApplyEvent(rendered + [created], VoteCreated(created)) == rendered + [created, created]
    ensures ApplyEvent(rendered + [created], VoteCreated(created)) != rendered + [created]
  {
    assert rendered + [created] + [created] == rendered + [created, created];
  }

  /** With `AppendOnce` in both handlers, whichever of the answer and the
      broadcast comes first, the second changes nothing: the admin's list is the
      server's. Entries with other ids are never lost. */
  lemma AppendOnceConverges(list: seq<BallotOption>, created: BallotOption)
    requires forall i :: 0 <= i < |list| ==> list[i].id != created.id
    ensures AppendOnce(list, created) == list + [created]
    ensures AppendOnce(AppendOnce(list, created), created) == list + [created]
  {
    var once := list + [created];
    assert once[|list|].id == created.id;
    var twice := ReplaceById(once, Some(created));
    forall i | 0 <= i < |once|
      ensures twice[i] == once[i]
    {
    }
  }

  /** An option another admin creates while this admin's request is in flight
      reaches the list through the broadcast, and is then overwritten by the
      handler's write of the rendered list, for an add and a delete alike. */
  method StaleWriteDropsBroadcast(app: ClientApp.AppState, panel: AdminPanel, rendered: seq<BallotOption>,
                                  other: BallotOption, created: BallotOption, id: Id)
    requires app.votes == rendered
    requires other !in rendered && other != created
    requires !JsString.AllWhiteSpace(panel.newOption)
    modifies app, panel
    ensures other !in app.votes
  {
    app.OnBroadcast(VoteCreated(other));
    assert other in app.votes by {
      assert app.votes[|rendered|] == other;
    }
    var _ := panel.HandleAddOption(app, rendered, Succeeded(created));
    assert other !in app.votes;
    app.OnBroadcast(VoteCreated(other));
    assert other in app.votes by {
      assert app.votes[|app.votes| - 1] == other;
    }
    panel.HandleDeleteOption(app, rendered, id, Succeeded(()));
  }

  /** Written as functional updates of the current list (`setVotes(prev => ...)`),
      the two handlers keep every option that arrived meanwhile. */
  lemma FunctionalUpdatesKeepBroadcast(current: seq<BallotOption>, other: BallotOption, created: BallotOption, id: Id)
    requires other in current && other.id != created.id && other.id != id
    ensures other in AppendOnce(current, created)
    ensures other in RemoveById(current, id)
  {
    var i :| 0 <= i < |current| && current[i] == other;
    if exists j :: 0 <= j < |current| && current[j].id == created.id {
      assert ReplaceById(current, Some(created))[i] == other;
    }
  }
}
