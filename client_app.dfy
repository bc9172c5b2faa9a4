/** The `App` component (frontend/src/App.js): its state cells, the initial
    fetch, the socket handlers and the choice of screen per route. */
module ClientApp {
  import opened Types
  import opened VoteLists

  const FetchFailedMessage: string := "Failed to fetch votes"
  const FallbackMessage: string := "Something went wrong"

  /** What `fetch(API_URL)` and `response.json()` give: an exception with its
      message, or an answer with its `ok` flag and body. */
  datatype FetchReply = FetchThrew(message: string) | FetchAnswered(ok: bool, data: seq<BallotOption>)

  /** The `useState` cells of `App`, with the `user` cell of the auth context
      that `App` hands to the pages. */
  class AppState {
    var votes: seq<BallotOption>
    var isLoading: bool
    var error: string
    var user: Option<User>

    constructor (user: Option<User>)
      ensures votes == [] && isLoading && error == "" && this.user == user
    {
      votes := [];
      isLoading := true;
      error := "";
      this.user := user;
    }

    /** `fetchVotes`: the list becomes the answer on success, `error` is set on
      any failure, and `isLoading` is cleared in every case. */
    method FetchVotes(reply: FetchReply)
      modifies this`votes, this`error, this`isLoading
      ensures !isLoading
      ensures reply.FetchAnswered? && reply.ok ==> votes == reply.data && error == old(error)
      ensures reply.FetchAnswered? && !reply.ok ==> votes == old(votes) && error == FetchFailedMessage
      ensures reply.FetchThrew? ==> votes == old(votes)
      ensures reply.FetchThrew? ==> error == if reply.message == "" then FallbackMessage else reply.message
    {
      if reply.FetchThrew? {
        error := if reply.message == "" then FallbackMessage else reply.message;
      } else if !reply.ok {
        error := FetchFailedMessage;
      } else {
        votes := reply.data;
      }
      isLoading := false;
    }

    /** The `voteUpdated`, `voteCreated` and `voteDeleted` socket handlers. */
    method OnBroadcast(e: Event)
      modifies this`votes
      ensures votes == ApplyEvent(old(votes), e)
    {
      match e
      case VoteUpdated(updated) => votes := ReplaceById(votes, updated);
      case VoteCreated(created) => votes := votes + [created];
      case VoteDeleted(id) => votes := RemoveById(votes, id);
    }
  }

  datatype Path = HomePath | LoginPath | RegisterPath | AdminPath | OtherPath

  datatype Screen =
    | Loading
    | HomeScreen
    | LoginScreen
    | RegisterScreen
    | AdminScreen
    | RedirectTo(target: Path)
    | NoScreen

  /** `user?.role === "admin"`. */
  predicate IsAdmin(user: Option<User>)
  {
    user.Some? && user.value.role == "admin"
  }

  /** What `App` renders for a path: "Loading..." until the first fetch is
      done; `/login` and `/register` redirect a signed-in user; the `/admin`
      route is only declared for an admin. */
  function Route(isLoading: bool, path: Path, user: Option<User>): (s: Screen)
    ensures isLoading <==> s == Loading
    ensures !isLoading && path == HomePath ==> s == HomeScreen
    ensures !isLoading && path == LoginPath ==>
      && (s == RedirectTo(AdminPath) <==> IsAdmin(user))
      && (s == RedirectTo(HomePath) <==> user.Some? && !IsAdmin(user))
      && (s == LoginScreen <==> user.None?)
    ensures !isLoading && path == RegisterPath ==>
      && (s == RedirectTo(HomePath) <==> user.Some?)
      && (s == RegisterScreen <==> user.None?)
    ensures !isLoading && path == AdminPath ==> (s == AdminScreen <==> IsAdmin(user)) && (s != AdminScreen ==> s == NoScreen)
    ensures !isLoading && path == OtherPath ==> s == NoScreen
  {
    if isLoading then Loading
    else
      match path
      case HomePath => HomeScreen
      case LoginPath =>
        if IsAdmin(user) then RedirectTo(AdminPath)
        else if user.Some? then RedirectTo(HomePath)
        else LoginScreen
      case RegisterPath => if user.Some? then RedirectTo(HomePath) else RegisterScreen
      case AdminPath => if IsAdmin(user) then AdminScreen else NoScreen
      case OtherPath => NoScreen
  }
}
