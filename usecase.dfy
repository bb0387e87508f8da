/**
 * The voting engine (internal/usecase/poll.go): creating, voting on,
 * reading, closing and deleting polls over the poll and answer
 * repositories, which share one connection.
 *
 * Each operation is specified by the requests it sends, in order, and by
 * what the two spaces hold afterwards. `conn.Healthy(old(conn.sent), n)`
 * says the first `n` of those requests go through. The invariant `StoresAgree` is
 * `Tally.Consistent` over the two spaces: votes counted equal answers stored.
 */
module Usecase {
  import opened Domain
  import opened Failures
  import opened Codec
  import opened Tarantool
  import opened PollStore
  import opened AnswerStore
  import opened Rules
  import opened Tally

  /**
   * What `AddAnswer` checks before it writes anything: a valid answer to a
   * stored poll that takes votes, from a user who has not answered it.
   */
  ghost predicate Admitted(polls: map<string, PollModel>, answers: map<string, AnswerModel>, a: Answer)
  {
    && ValidateAnswer(a) == Pass
    && a.pollId in polls && polls[a.pollId].isActive
    && !HasAnswer(answers, a.userId, a.pollId)
  }

  /** A valid answer to a stored poll that takes votes. */
  ghost predicate Open(polls: map<string, PollModel>, a: Answer)
  {
    ValidateAnswer(a) == Pass && a.pollId in polls && polls[a.pollId].isActive
  }

  /** The wrapping every failed read of the poll gets in the engine. */
  function NotRetrieved(err: Error): Error
  {
    Wrapped("could not retrieve poll", err)
  }

  /** The poll service: the Go `usecase.Poll`. */
  class PollService {
    const pollRepo: PollRepository
    const answerRepo: AnswerRepository

    constructor (pollRepo: PollRepository, answerRepo: AnswerRepository)
      ensures this.pollRepo == pollRepo && this.answerRepo == answerRepo
    {
      this.pollRepo := pollRepo;
      this.answerRepo := answerRepo;
    }

    /** Both repositories talk to the same server, and no update is under way. */
    ghost predicate Valid()
      reads pollRepo, pollRepo.conn
    {
      pollRepo.conn == answerRepo.conn && !pollRepo.held && pollRepo.conn.Valid()
    }

    /** The counts stored in the polls agree with the answers stored. */
    ghost predicate StoresAgree()
      reads pollRepo.conn
    {
      Consistent(pollRepo.conn.polls, pollRepo.conn.answers)
    }

    /** Stores a new poll under its identifier; a taken identifier is refused. */
    method CreatePoll(poll: Poll) returns (r: Outcome)
      requires Valid()
      modifies pollRepo.conn`polls, pollRepo.conn`sent
      ensures Valid()
      ensures pollRepo.conn.sent == old(pollRepo.conn.sent) + 1
      ensures r == if pollRepo.conn.Fails(old(pollRepo.conn.sent)) then Fail(Store(Io))
                   else if poll.id in old(pollRepo.conn.polls) then Fail(Store(DuplicateKey))
                   else Pass
      ensures pollRepo.conn.polls == if r.Pass? then old(pollRepo.conn.polls)[poll.id := NewPollModel(poll)]
                                     else old(pollRepo.conn.polls)
      ensures old(StoresAgree())
              && (forall k :: k in pollRepo.conn.answers ==> pollRepo.conn.answers[k].pollId != poll.id)
              && (forall i :: 0 <= i < |poll.options| ==> poll.options[i].votes == 0)
              ==> StoresAgree()
    {
      r := pollRepo.Save(poll);
      if r.Pass? && old(StoresAgree())
         && (forall k :: k in pollRepo.conn.answers ==> pollRepo.conn.answers[k].pollId != poll.id)
         && (forall i :: 0 <= i < |poll.options| ==> poll.options[i].votes == 0)
      {
        TallyAfterCreate(old(pollRepo.conn.polls), pollRepo.conn.answers, NewPollModel(poll));
      }
    }

    /** Whether the poll under `pollId` takes votes. */
    method IsPollActive(pollId: string) returns (r: Result<bool>)
      requires Valid()
      modifies pollRepo.conn`sent
      ensures Valid()
      ensures pollRepo.conn.sent == old(pollRepo.conn.sent) + 1
      ensures pollRepo.conn.Fails(old(pollRepo.conn.sent)) ==>
                r == Err(NotRetrieved(Wrapped("could not select typed poll in tarantool", Store(Io))))
      ensures !pollRepo.conn.Fails(old(pollRepo.conn.sent)) && pollId !in pollRepo.conn.polls ==>
                r == Err(NotRetrieved(PollNotFound))
      ensures !pollRepo.conn.Fails(old(pollRepo.conn.sent)) && pollId in pollRepo.conn.polls ==>
                r == Ok(pollRepo.conn.polls[pollId].isActive)
    {
      var poll := pollRepo.GetByID(pollId);
      if poll.Err? {
        return Err(NotRetrieved(poll.error));
      }
      r := Ok(poll.value.isActive);
    }

    /**
     * Records `answer` under the generated key `freshId` and counts its vote.
     * The answer is saved before the count, in separate requests, so an
     * update that fails after a successful save leaves an answer that is
     * not counted, and the stores no longer agree.
     */
    method AddAnswer(answer: Answer, freshId: string) returns (r: Outcome)
      requires Valid()
      modifies pollRepo`held, pollRepo.conn`polls, pollRepo.conn`answers, pollRepo.conn`sent
      ensures Valid()
      ensures pollRepo.conn.sent >= old(pollRepo.conn.sent)
      ensures answer.userId == "" ==> r == Fail(InvalidUserID)
      ensures answer.userId != "" && answer.vote < 0 ==> r == Fail(NoSuchOption)
      ensures ValidateAnswer(answer) == Pass && !pollRepo.conn.Fails(old(pollRepo.conn.sent)) ==>
                (answer.pollId !in old(pollRepo.conn.polls) ==> r == Fail(NotRetrieved(PollNotFound)))
                && (answer.pollId in old(pollRepo.conn.polls) && !old(pollRepo.conn.polls)[answer.pollId].isActive
                    ==> r == Fail(PollIsNotActive))
      ensures ValidateAnswer(answer) == Pass && pollRepo.conn.Healthy(old(pollRepo.conn.sent), 2)
              && answer.pollId in old(pollRepo.conn.polls) && old(pollRepo.conn.polls)[answer.pollId].isActive
              && HasAnswer(old(pollRepo.conn.answers), answer.userId, answer.pollId)
              ==> r == Fail(Wrapped("could not save answer", AnswerAlreadyExists))
      ensures Admitted(old(pollRepo.conn.polls), old(pollRepo.conn.answers), answer)
              && pollRepo.conn.Healthy(old(pollRepo.conn.sent), 4) && freshId !in old(pollRepo.conn.answers)
              ==> pollRepo.conn.answers == old(pollRepo.conn.answers)[freshId := NewAnswerModel(answer, freshId)]
                  && r == if answer.vote < |old(pollRepo.conn.polls)[answer.pollId].options|
                          && pollRepo.conn.Healthy(old(pollRepo.conn.sent), 5)
                       then Pass
                       else if answer.vote < |old(pollRepo.conn.polls)[answer.pollId].options|
                       then Fail(Wrapped("could not update poll",
                                   Wrapped("could not replace in tarantool", Store(Io))))
                       else Fail(Wrapped("could not update poll",
                                   Wrapped("could not update poll", Message("there is no such option in poll"))))
      ensures ValidateAnswer(answer) == Pass && pollRepo.conn.Fails(old(pollRepo.conn.sent)) ==>
                r == Fail(NotRetrieved(Wrapped("could not select typed poll in tarantool", Store(Io))))
      ensures Open(old(pollRepo.conn.polls), answer) && !pollRepo.conn.Fails(old(pollRepo.conn.sent)) && pollRepo.conn.Fails(old(pollRepo.conn.sent) + 1) ==>
                r == Fail(Wrapped("could not save answer", Wrapped("could not select typed answer in tarantool", Store(Io))))
      ensures Admitted(old(pollRepo.conn.polls), old(pollRepo.conn.answers), answer) && pollRepo.conn.Healthy(old(pollRepo.conn.sent), 2) ==>
                (pollRepo.conn.Fails(old(pollRepo.conn.sent) + 2) ==> r == Fail(Wrapped("could not save answer", Store(Io))))
                && (!pollRepo.conn.Fails(old(pollRepo.conn.sent) + 2) && freshId in old(pollRepo.conn.answers)
                    ==> r == Fail(Wrapped("could not save answer", Store(DuplicateKey))))
                && (!pollRepo.conn.Fails(old(pollRepo.conn.sent) + 2) && freshId !in old(pollRepo.conn.answers) && pollRepo.conn.Fails(old(pollRepo.conn.sent) + 3)
                    ==> r == Fail(Wrapped("could not update poll",
                                  Wrapped("could not select typed poll in tarantool", Store(Io)))))
      ensures r.Pass? ==> pollRepo.conn.Healthy(old(pollRepo.conn.sent), 5)
      ensures r.Fail? ==> pollRepo.conn.polls == old(pollRepo.conn.polls)
      ensures pollRepo.conn.answers != old(pollRepo.conn.answers) ==>
                Admitted(old(pollRepo.conn.polls), old(pollRepo.conn.answers), answer)
                && freshId !in old(pollRepo.conn.answers)
                && pollRepo.conn.answers == old(pollRepo.conn.answers)[freshId := NewAnswerModel(answer, freshId)]
      ensures r.Pass? ==>
                && pollRepo.conn.answers != old(pollRepo.conn.answers)
                && 0 <= answer.vote < |old(pollRepo.conn.polls)[answer.pollId].options|
                && pollRepo.conn.polls == old(pollRepo.conn.polls)[answer.pollId :=
                     NewPollModel(CountVote(ToPoll(old(pollRepo.conn.polls)[answer.pollId]), answer.vote).value)]
      ensures old(StoresAgree()) ==>
                (StoresAgree() <==> r.Pass? || pollRepo.conn.answers == old(pollRepo.conn.answers))
    {
      var valid := ValidateAnswer(answer);
      if valid.Fail? {
        return valid;
      }
      var active := IsPollActive(answer.pollId);
      if active.Err? {
        return Fail(active.error);
      } else if !active.value {
        return Fail(PollIsNotActive);
      }
      r := RecordVote(answer, freshId);
    }

    /**
     * The writes of `AddAnswer`, once the answer is valid and its poll
     * stored: the answer is saved, then the poll is updated with the vote
     * counted.
     */
    method RecordVote(answer: Answer, freshId: string) returns (r: Outcome)
      requires Valid()
      requires ValidateAnswer(answer) == Pass && answer.pollId in pollRepo.conn.polls
      modifies pollRepo`held, pollRepo.conn`polls, pollRepo.conn`answers, pollRepo.conn`sent
      ensures Valid()
      ensures pollRepo.conn.sent >= old(pollRepo.conn.sent)
      ensures !pollRepo.conn.Fails(old(pollRepo.conn.sent)) && HasAnswer(old(pollRepo.conn.answers), answer.userId, answer.pollId)
              ==> r == Fail(Wrapped("could not save answer", AnswerAlreadyExists))
      ensures !HasAnswer(old(pollRepo.conn.answers), answer.userId, answer.pollId)
              && pollRepo.conn.Healthy(old(pollRepo.conn.sent), 3) && freshId !in old(pollRepo.conn.answers)
              ==> pollRepo.conn.answers == old(pollRepo.conn.answers)[freshId := NewAnswerModel(answer, freshId)]
                  && r == if answer.vote < |old(pollRepo.conn.polls)[answer.pollId].options|
                          && pollRepo.conn.Healthy(old(pollRepo.conn.sent), 4)
                       then Pass
                       else if answer.vote < |old(pollRepo.conn.polls)[answer.pollId].options|
                       then Fail(Wrapped("could not update poll",
                                   Wrapped("could not replace in tarantool", Store(Io))))
                       else Fail(Wrapped("could not update poll",
                                   Wrapped("could not update poll", Message("there is no such option in poll"))))
      ensures pollRepo.conn.Fails(old(pollRepo.conn.sent)) ==>
                r == Fail(Wrapped("could not save answer", Wrapped("could not select typed answer in tarantool", Store(Io))))
      ensures !HasAnswer(old(pollRepo.conn.answers), answer.userId, answer.pollId) && !pollRepo.conn.Fails(old(pollRepo.conn.sent)) ==>
                (pollRepo.conn.Fails(old(pollRepo.conn.sent) + 1) ==> r == Fail(Wrapped("could not save answer", Store(Io))))
                && (!pollRepo.conn.Fails(old(pollRepo.conn.sent) + 1) && freshId in old(pollRepo.conn.answers)
                    ==> r == Fail(Wrapped("could not save answer", Store(DuplicateKey))))
                && (!pollRepo.conn.Fails(old(pollRepo.conn.sent) + 1) && freshId !in old(pollRepo.conn.answers) && pollRepo.conn.Fails(old(pollRepo.conn.sent) + 2)
                    ==> r == Fail(Wrapped("could not update poll",
                                  Wrapped("could not select typed poll in tarantool", Store(Io)))))
      ensures r.Pass? ==> pollRepo.conn.Healthy(old(pollRepo.conn.sent), 4)
      ensures r.Fail? ==> pollRepo.conn.polls == old(pollRepo.conn.polls)
      ensures pollRepo.conn.answers != old(pollRepo.conn.answers) ==>
                !HasAnswer(old(pollRepo.conn.answers), answer.userId, answer.pollId)
                && freshId !in old(pollRepo.conn.answers)
                && pollRepo.conn.answers == old(pollRepo.conn.answers)[freshId := NewAnswerModel(answer, freshId)]
      ensures r.Pass? ==>
                && pollRepo.conn.answers != old(pollRepo.conn.answers)
                && answer.vote < |old(pollRepo.conn.polls)[answer.pollId].options|
                && pollRepo.conn.polls == old(pollRepo.conn.polls)[answer.pollId :=
                     NewPollModel(CountVote(ToPoll(old(pollRepo.conn.polls)[answer.pollId]), answer.vote).value)]
      ensures old(StoresAgree()) ==>
                (StoresAgree() <==> r.Pass? || pollRepo.conn.answers == old(pollRepo.conn.answers))
    {
      var saved := answerRepo.Save(answer, freshId);
      if saved.Fail? {
        return Fail(Wrapped("could not save answer", saved.error));
      }
      var vote := answer.vote;
      var updated := pollRepo.UpdateByID(answer.pollId, p => CountVote(p, vote));
      if updated.Fail? {
        if old(StoresAgree()) {
          SavedNotCountedBreaksTally(old(pollRepo.conn.polls), old(pollRepo.conn.answers), freshId, answer);
        }
        return Fail(Wrapped("could not update poll", updated.error));
      }
      assert pollRepo.conn.Healthy(old(pollRepo.conn.sent), 4) by {
        assert pollRepo.conn.Healthy(old(pollRepo.conn.sent), 2);
        assert pollRepo.conn.Healthy(old(pollRepo.conn.sent) + 2, 2);
      }
      if old(StoresAgree()) {
        TallyAfterVote(old(pollRepo.conn.polls), old(pollRepo.conn.answers), freshId, answer,
                       CountVote(ToPoll(old(pollRepo.conn.polls)[answer.pollId]), vote).value);
      }
      r := Pass;
    }

    /** The options of the poll under `id`, with their counts. */
    method GetPollResultsByID(id: string) returns (r: Result<seq<PollOption>>)
      requires Valid()
      modifies pollRepo.conn`sent
      ensures Valid()
      ensures pollRepo.conn.sent == old(pollRepo.conn.sent) + 1
      ensures pollRepo.conn.Fails(old(pollRepo.conn.sent)) ==>
                r == Err(NotRetrieved(Wrapped("could not select typed poll in tarantool", Store(Io))))
      ensures !pollRepo.conn.Fails(old(pollRepo.conn.sent)) && id !in pollRepo.conn.polls ==>
                r == Err(NotRetrieved(PollNotFound))
      ensures !pollRepo.conn.Fails(old(pollRepo.conn.sent)) && id in pollRepo.conn.polls ==>
                r == Ok(pollRepo.conn.polls[id].options)
    {
      var poll := pollRepo.GetByID(id);
      if poll.Err? {
        return Err(NotRetrieved(poll.error));
      }
      r := Ok(poll.value.options);
    }

    /**
     * Stops the poll under `id` from taking votes, for its author only.
     * Closing a closed poll succeeds and changes nothing.
     */
    method ClosePollByID(id: string, senderId: string) returns (r: Outcome)
      requires Valid()
      modifies pollRepo`held, pollRepo.conn`polls, pollRepo.conn`sent
      ensures Valid()
      ensures pollRepo.conn.sent >= old(pollRepo.conn.sent)
      ensures !pollRepo.conn.Fails(old(pollRepo.conn.sent)) && id !in old(pollRepo.conn.polls) ==> r == Fail(PollNotFound)
      ensures !pollRepo.conn.Fails(old(pollRepo.conn.sent)) && id in old(pollRepo.conn.polls)
              && old(pollRepo.conn.polls)[id].author != senderId
              ==> r == Fail(Wrapped("could not update poll", UserIsNotPollAuthor))
      ensures pollRepo.conn.Healthy(old(pollRepo.conn.sent), 2) && id in old(pollRepo.conn.polls)
              && old(pollRepo.conn.polls)[id].author == senderId
              ==> r == Pass
      ensures pollRepo.conn.Fails(old(pollRepo.conn.sent)) ==> r == Fail(Wrapped("could not select typed poll in tarantool", Store(Io)))
      ensures !pollRepo.conn.Fails(old(pollRepo.conn.sent)) && id in old(pollRepo.conn.polls) && old(pollRepo.conn.polls)[id].author == senderId
              && pollRepo.conn.Fails(old(pollRepo.conn.sent) + 1)
              ==> r == Fail(Wrapped("could not replace in tarantool", Store(Io)))
      ensures r.Pass? ==> pollRepo.conn.Healthy(old(pollRepo.conn.sent), 2)
      ensures r.Pass? ==> id in old(pollRepo.conn.polls)
      ensures pollRepo.conn.polls == if r.Pass? then old(pollRepo.conn.polls)[id := old(pollRepo.conn.polls)[id].(isActive := false)]
                                     else old(pollRepo.conn.polls)
      ensures r.Pass? && !old(pollRepo.conn.polls)[id].isActive ==> pollRepo.conn.polls == old(pollRepo.conn.polls)
      ensures pollRepo.conn.answers == old(pollRepo.conn.answers)
      ensures old(StoresAgree()) ==> StoresAgree()
    {
      r := pollRepo.UpdateByID(id, p => CloseBy(p, senderId));
      if r.Pass? {
        ghost var m := old(pollRepo.conn.polls)[id];
        assert NewPollModel(CloseBy(ToPoll(m), senderId).value) == m.(isActive := false);
        if old(StoresAgree()) {
          TallyAfterSameOptions(old(pollRepo.conn.polls), pollRepo.conn.answers, id, m.(isActive := false));
        }
      }
    }

    /**
     * Removes the poll under `id`, for its author only. Its answers are
     * meant to go too, but the answer repository leaves them in place.
     */
    method DeletePollByID(id: string, senderId: string) returns (r: Outcome)
      requires Valid()
      modifies pollRepo.conn`polls, pollRepo.conn`sent
      ensures Valid()
      ensures pollRepo.conn.sent >= old(pollRepo.conn.sent)
      ensures pollRepo.conn.Fails(old(pollRepo.conn.sent)) ==>
                r == Fail(NotRetrieved(Wrapped("could not select typed poll in tarantool", Store(Io))))
      ensures !pollRepo.conn.Fails(old(pollRepo.conn.sent)) && id !in old(pollRepo.conn.polls) ==>
                r == Fail(NotRetrieved(PollNotFound))
      ensures !pollRepo.conn.Fails(old(pollRepo.conn.sent)) && id in old(pollRepo.conn.polls)
              && old(pollRepo.conn.polls)[id].author != senderId
              ==> r == Fail(UserIsNotPollAuthor)
      ensures !pollRepo.conn.Fails(old(pollRepo.conn.sent)) && id in old(pollRepo.conn.polls)
              && old(pollRepo.conn.polls)[id].author == senderId
              ==> r == if pollRepo.conn.Fails(old(pollRepo.conn.sent) + 1)
                       then Fail(Wrapped("could not delete poll", Store(Io)))
                       else Pass
      ensures pollRepo.conn.polls == if r.Pass? then old(pollRepo.conn.polls) - {id} else old(pollRepo.conn.polls)
      ensures pollRepo.conn.answers == old(pollRepo.conn.answers)
      ensures old(StoresAgree()) ==> StoresAgree()
    {
      var poll := pollRepo.GetByID(id);
      if poll.Err? {
        return Fail(NotRetrieved(poll.error));
      }
      if poll.value.author != senderId {
        return Fail(UserIsNotPollAuthor);
      }
      var deleted := pollRepo.DeleteByID(id);
      if deleted.Fail? {
        return Fail(Wrapped("could not delete poll", deleted.error));
      }
      var cleared := answerRepo.DeleteByPoll(id);
      match cleared
      case Fail(err) => return Fail(Wrapped("could not delete poll answers", err));
      case Pass =>
      if old(StoresAgree()) {
        TallyAfterDelete(old(pollRepo.conn.polls), pollRepo.conn.answers, id);
      }
      r := Pass;
    }
  }

  /** The stored coffee-or-tea poll of `alice` with its two counts. */
  ghost function Ballot(id: string, coffee: int, tea: int, isActive: bool): PollModel
  {
    PollModel(id, "Coffee or tea?", [PollOption("Coffee", coffee), PollOption("Tea", tea)], isActive, "alice")
  }

  /** With no failing request, an admitted vote for an existing option is saved and counted. */
  method CountedVote(service: PollService, answer: Answer, key: string) returns (r: Outcome)
    requires service.Valid() && service.pollRepo.conn.faults == []
    requires Admitted(service.pollRepo.conn.polls, service.pollRepo.conn.answers, answer)
    requires key !in service.pollRepo.conn.answers
    requires answer.vote < |service.pollRepo.conn.polls[answer.pollId].options|
    modifies service.pollRepo`held, service.pollRepo.conn`polls, service.pollRepo.conn`answers
    modifies service.pollRepo.conn`sent
    ensures service.Valid()
    ensures r == Pass
    ensures service.pollRepo.conn.polls == old(service.pollRepo.conn.polls)[answer.pollId :=
              NewPollModel(CountVote(ToPoll(old(service.pollRepo.conn.polls)[answer.pollId]), answer.vote).value)]
    ensures service.pollRepo.conn.answers == old(service.pollRepo.conn.answers)[key := NewAnswerModel(answer, key)]
  {
    r := service.AddAnswer(answer, key);
  }

  /** On a fresh ballot with no failing request, one vote for coffee and one for tea are both counted. */
  method FirstVotes(service: PollService, id: string) returns (coffee: Outcome, tea: Outcome)
    requires service.Valid() && service.pollRepo.conn.faults == []
    requires service.pollRepo.conn.polls == map[id := Ballot(id, 0, 0, true)]
    requires service.pollRepo.conn.answers == map[]
    modifies service.pollRepo`held, service.pollRepo.conn`polls, service.pollRepo.conn`answers
    modifies service.pollRepo.conn`sent
    ensures service.Valid()
    ensures coffee == Pass && tea == Pass
    ensures service.pollRepo.conn.polls == map[id := Ballot(id, 1, 1, true)]
    ensures HasAnswer(service.pollRepo.conn.answers, "u1", id)
  {
    var conn := service.pollRepo.conn;
    coffee := CountedVote(service, Answer("u1", id, 0), "a1");
    assert NewPollModel(CountVote(ToPoll(Ballot(id, 0, 0, true)), 0).value) == Ballot(id, 1, 0, true);
    assert conn.answers == map["a1" := AnswerModel("a1", "u1", id, 0)];
    tea := CountedVote(service, Answer("u2", id, 1), "a2");
    assert NewPollModel(CountVote(ToPoll(Ballot(id, 1, 0, true)), 1).value) == Ballot(id, 1, 1, true);
    assert conn.answers["a1"].userId == "u1" && conn.answers["a1"].pollId == id;
  }

  /**
   * On the counted ballot, a second vote by `u1` is refused, `bob` cannot
   * close the poll, `alice` can, and then no vote is taken.
   */
  method SecondVoteAndClose(service: PollService, id: string)
    returns (again: Outcome, closedByBob: Outcome, closedByAlice: Outcome, late: Outcome)
    requires service.Valid() && service.pollRepo.conn.faults == []
    requires service.pollRepo.conn.polls == map[id := Ballot(id, 1, 1, true)]
    requires HasAnswer(service.pollRepo.conn.answers, "u1", id)
    modifies service.pollRepo`held, service.pollRepo.conn`polls, service.pollRepo.conn`answers
    modifies service.pollRepo.conn`sent
    ensures again == Fail(Wrapped("could not save answer", AnswerAlreadyExists))
    ensures closedByBob == Fail(Wrapped("could not update poll", UserIsNotPollAuthor))
    ensures closedByAlice == Pass
    ensures late == Fail(PollIsNotActive)
  {
    var conn := service.pollRepo.conn;
    again := service.AddAnswer(Answer("u1", id, 1), "a3");
    closedByBob := service.ClosePollByID(id, "bob");
    closedByAlice := service.ClosePollByID(id, "alice");
    assert conn.polls == map[id := Ballot(id, 1, 1, false)];
    late := service.AddAnswer(Answer("u3", id, 0), "a4");
  }

  /**
   * Two users vote for coffee and for tea; a second vote by either is
   * refused; a stranger cannot close the poll, its author can, and after
   * that no one can vote.
   */
  method CoffeeOrTea(id: string)
    returns (created: Outcome, coffee: Outcome, tea: Outcome, results: Result<seq<PollOption>>,
             again: Outcome, closedByBob: Outcome, closedByAlice: Outcome, late: Outcome)
    ensures created == Pass && coffee == Pass && tea == Pass
    ensures results == Ok([PollOption("Coffee", 1), PollOption("Tea", 1)])
    ensures again == Fail(Wrapped("could not save answer", AnswerAlreadyExists))
    ensures closedByBob == Fail(Wrapped("could not update poll", UserIsNotPollAuthor))
    ensures closedByAlice == Pass
    ensures late == Fail(PollIsNotActive)
  {
    var conn := new Conn([]);
    var pollRepo := new PollRepository(conn);
    var answerRepo := new AnswerRepository(conn);
    var service := new PollService(pollRepo, answerRepo);
    var poll := NewPoll("Coffee or tea?", [PollOption("Coffee", 0), PollOption("Tea", 0)], "alice");
    created := service.CreatePoll(poll.(id := id));
    coffee, tea := FirstVotes(service, id);
    results := service.GetPollResultsByID(id);
    again, closedByBob, closedByAlice, late := SecondVoteAndClose(service, id);
  }
}
