/**
 * The pure parts of the voting engine (internal/usecase/poll.go): the
 * validation of an answer and the two updates the engine hands to the poll
 * repository, one counting a vote and one closing a poll. The Go callbacks
 * change the poll they are given in place; here they return the changed
 * poll or the error that stops the update.
 */
module Rules {
  import opened Domain
  import opened Failures

  /** `validateAnswer` as written: only an empty user is refused. */
  function ValidateAnswerAsWritten(a: Answer): (r: Outcome)
    ensures r == Pass <==> a.userId != ""
    ensures r.Fail? ==> r.error == InvalidUserID
  {
    if a.userId == "" then Fail(InvalidUserID) else Pass
  }

  /**
   * `validateAnswer` with the negative vote refused as well, so that the
   * vote is an index once the poll is known to have that many options.
   */
  function ValidateAnswer(a: Answer): (r: Outcome)
    ensures r == Pass <==> a.userId != "" && a.vote >= 0
    ensures a.userId == "" ==> r == Fail(InvalidUserID)
    ensures a.userId != "" && a.vote < 0 ==> r == Fail(NoSuchOption)
  {
    if a.userId == "" then Fail(InvalidUserID)
    else if a.vote < 0 then Fail(NoSuchOption)
    else Pass
  }

  /** `after` is `before` with one more vote for option `vote` and nothing else changed. */
  ghost predicate Incremented(before: Poll, after: Poll, vote: int)
  {
    && 0 <= vote < |before.options|
    && after.id == before.id && after.question == before.question
    && after.isActive == before.isActive && after.author == before.author
    && |after.options| == |before.options|
    && after.options[vote].text == before.options[vote].text
    && after.options[vote].votes == before.options[vote].votes + 1
    && forall j :: 0 <= j < |before.options| && j != vote ==> after.options[j] == before.options[j]
  }

  /**
   * The update of `AddAnswer`: a vote past the last option is refused with
   * a message, a negative vote indexes out of range (a run-time panic in
   * Go), and any other vote adds one to its option and changes nothing else.
   */
  function CountVote(p: Poll, vote: int): (r: Result<Poll>)
    ensures vote >= |p.options| ==> r == Err(Message("there is no such option in poll"))
    ensures vote < 0 ==> r == Err(Panic("index out of range"))
    ensures 0 <= vote < |p.options| ==> r.Ok? && Incremented(p, r.value, vote)
  {
    if |p.options| <= vote then Err(Message("there is no such option in poll"))
    else if vote < 0 then Err(Panic("index out of range"))
    else
      var option := p.options[vote];
      Ok(p.(options := p.options[vote := option.(votes := option.votes + 1)]))
  }

  /**
   * The update of `ClosePollByID`: refused for anyone but the author;
   * for the author the poll stops taking votes and nothing else changes.
   */
  function CloseBy(p: Poll, senderId: string): (r: Result<Poll>)
    ensures r.Ok? <==> p.author == senderId
    ensures r.Err? ==> r.error == UserIsNotPollAuthor
    ensures r.Ok? ==> !r.value.isActive && r.value.(isActive := p.isActive) == p
  {
    if p.author != senderId then Err(UserIsNotPollAuthor) else Ok(p.(isActive := false))
  }

  /** Closing a closed poll changes nothing. */
  lemma CloseIdempotent(p: Poll, senderId: string)
    requires CloseBy(p, senderId).Ok?
    ensures CloseBy(CloseBy(p, senderId).value, senderId) == CloseBy(p, senderId)
  {
  }

  /**
   * With the validation as written, a negative vote from a named user is
   * accepted, and counting it indexes out of range.
   */
  lemma NegativeVoteAsWritten(a: Answer, p: Poll)
    requires a.userId != "" && a.vote < 0
    ensures ValidateAnswerAsWritten(a) == Pass
    ensures CountVote(p, a.vote) == Err(Panic("index out of range"))
    ensures ValidateAnswer(a) == Fail(NoSuchOption)
  {
  }
}
