/**
 * The answer repository (internal/repository/ttadapter/answer.go): answers
 * kept in the "answers" space under a generated key, found by the pair
 * (user, poll), and inserted only after a lookup of that pair finds none.
 *
 * The generated key (`uuid.NewString()`) is a parameter, `freshId`.
 */
module AnswerStore {
  import opened Domain
  import opened Failures
  import opened Codec
  import opened Tarantool

  class AnswerRepository {
    const conn: Conn

    constructor (conn: Conn)
      ensures this.conn == conn
    {
      this.conn := conn;
    }

    /**
     * Stores `answer` unless the pair (user, poll) already has one: a found
     * answer gives `AnswerAlreadyExists`, any other failed lookup is passed
     * on, and in both cases nothing is inserted.
     */
    method Save(answer: Answer, freshId: string) returns (r: Outcome)
      requires conn.Valid()
      modifies conn`answers, conn`sent
      ensures conn.Valid()
      ensures conn.sent == if conn.Fails(old(conn.sent)) || HasAnswer(old(conn.answers), answer.userId, answer.pollId)
                             then old(conn.sent) + 1
                             else old(conn.sent) + 2
      ensures conn.Fails(old(conn.sent)) ==>
                r == Fail(Wrapped("could not select typed answer in tarantool", Store(Io)))
      ensures !conn.Fails(old(conn.sent)) && HasAnswer(old(conn.answers), answer.userId, answer.pollId) ==>
                r == Fail(AnswerAlreadyExists)
      ensures !conn.Fails(old(conn.sent)) && !HasAnswer(old(conn.answers), answer.userId, answer.pollId) ==>
                r == if conn.Fails(old(conn.sent) + 1) then Fail(Store(Io))
                     else if freshId in old(conn.answers) then Fail(Store(DuplicateKey))
                     else Pass
      ensures conn.answers == if r.Pass? then old(conn.answers)[freshId := NewAnswerModel(answer, freshId)]
                              else old(conn.answers)
    {
      var found := GetByUserAndPoll(answer.userId, answer.pollId);
      if found.Ok? {
        return Fail(AnswerAlreadyExists);
      } else if !Is(found.error, AnswerNotFound) {
        return Fail(found.error);
      }
      r := conn.InsertAnswer(NewAnswerModel(answer, freshId));
    }

    /** Some answer of the pair (`userId`, `pollId`), or `AnswerNotFound` when there is none. */
    method GetByUserAndPoll(userId: string, pollId: string) returns (r: Result<Answer>)
      modifies conn`sent
      ensures conn.sent == old(conn.sent) + 1
      ensures conn.Fails(old(conn.sent)) ==>
                r == Err(Wrapped("could not select typed answer in tarantool", Store(Io)))
      ensures !conn.Fails(old(conn.sent)) && !HasAnswer(conn.answers, userId, pollId) ==> r == Err(AnswerNotFound)
      ensures !conn.Fails(old(conn.sent)) && HasAnswer(conn.answers, userId, pollId) ==> r.Ok?
      ensures r.Ok? ==> r.value.userId == userId && r.value.pollId == pollId
                        && exists k :: k in conn.answers && ToAnswer(conn.answers[k]) == r.value
    {
      var res := conn.SelectAnswer(userId, pollId);
      if res.Err? {
        return Err(Wrapped("could not select typed answer in tarantool", res.error));
      }
      if res.value.None? {
        return Err(AnswerNotFound);
      }
      var m := res.value.value;
      ghost var k :| k in conn.answers && conn.answers[k] == m;
      r := Ok(ToAnswer(m));
    }

    /**
     * Meant to remove the answers of a poll; the space cannot delete by a
     * key that is not unique, so it does nothing and reports success.
     */
    method DeleteByPoll(pollId: string) returns (r: Outcome)
      ensures r == Pass
    {
      r := Pass;
    }

    /**
     * `GetByUserAndPoll` as the repository writes it: the select goes to the
     * "polls" space, so a stored answer is never found. What the index of
     * that space returns, if anything, is `hit`.
     */
    method GetByUserAndPollAsWritten(userId: string, pollId: string, hit: Option<string>)
      returns (r: Result<Answer>)
      requires hit.Some? ==> hit.value in conn.polls
      modifies conn`sent
      ensures conn.sent == old(conn.sent) + 1
      ensures r.Err?
      ensures conn.Fails(old(conn.sent)) ==>
                r == Err(Wrapped("could not select typed answer in tarantool", Store(Io)))
      ensures !conn.Fails(old(conn.sent)) && hit.None? ==> r == Err(AnswerNotFound)
      ensures !conn.Fails(old(conn.sent)) && hit.Some? ==>
                r == Err(Wrapped("could not select typed answer in tarantool", Decode(LengthMismatch(PollModelFields))))
    {
      var res := conn.SelectAnswerInPolls(userId, pollId, hit);
      if res.Err? {
        return Err(Wrapped("could not select typed answer in tarantool", res.error));
      }
      match res.value
      case None => r := Err(AnswerNotFound);
      case Some(m) => r := Ok(ToAnswer(m));
    }

    /** `Save` over the lookup as written: it never reports `AnswerAlreadyExists`. */
    method SaveAsWritten(answer: Answer, freshId: string, hit: Option<string>) returns (r: Outcome)
      requires conn.Valid()
      requires hit.Some? ==> hit.value in conn.polls
      modifies conn`answers, conn`sent
      ensures conn.Valid()
      ensures r != Fail(AnswerAlreadyExists)
      ensures conn.Fails(old(conn.sent)) ==>
                conn.sent == old(conn.sent) + 1
                && r == Fail(Wrapped("could not select typed answer in tarantool", Store(Io)))
      ensures !conn.Fails(old(conn.sent)) && hit.Some? ==>
                conn.sent == old(conn.sent) + 1
                && r == Fail(Wrapped("could not select typed answer in tarantool", Decode(LengthMismatch(PollModelFields))))
      ensures !conn.Fails(old(conn.sent)) && hit.None? ==>
                conn.sent == old(conn.sent) + 2
                && r == if conn.Fails(old(conn.sent) + 1) then Fail(Store(Io))
                        else if freshId in old(conn.answers) then Fail(Store(DuplicateKey))
                        else Pass
      ensures conn.answers == if r.Pass? then old(conn.answers)[freshId := NewAnswerModel(answer, freshId)]
                              else old(conn.answers)
    {
      var found := GetByUserAndPollAsWritten(answer.userId, answer.pollId, hit);
      if found.Ok? {
        return Fail(AnswerAlreadyExists);
      } else if !Is(found.error, AnswerNotFound) {
        return Fail(found.error);
      }
      r := conn.InsertAnswer(NewAnswerModel(answer, freshId));
    }
  }

  /**
   * With the lookup as written, the same user's answer to the same poll is
   * saved twice: both saves succeed and both records are stored.
   */
  method DuplicateAnswerAsWritten(answer: Answer, id1: string, id2: string)
    returns (first: Outcome, second: Outcome, stored: map<string, AnswerModel>)
    requires id1 != id2
    ensures first == Pass && second == Pass
    ensures stored == map[id1 := NewAnswerModel(answer, id1), id2 := NewAnswerModel(answer, id2)]
  {
    var conn := new Conn([]);
    var repo := new AnswerRepository(conn);
    first := repo.SaveAsWritten(answer, id1, None);
    second := repo.SaveAsWritten(answer, id2, None);
    stored := conn.answers;
  }

  /** With the lookup reading the answers, the second save of the pair is refused. */
  method DuplicateAnswerRefused(answer: Answer, id1: string, id2: string)
    returns (first: Outcome, second: Outcome, stored: map<string, AnswerModel>)
    ensures first == Pass && second == Fail(AnswerAlreadyExists)
    ensures stored == map[id1 := NewAnswerModel(answer, id1)]
  {
    var conn := new Conn([]);
    var repo := new AnswerRepository(conn);
    first := repo.Save(answer, id1);
    assert conn.answers[id1].userId == answer.userId && conn.answers[id1].pollId == answer.pollId;
    second := repo.Save(answer, id2);
    stored := conn.answers;
  }
}
