/**
 * The poll repository (internal/repository/tarantool/poll.go): polls kept in
 * the "polls" space under their identifier, and a read-modify-write update
 * guarded by a mutex. The mutex is modelled by whether it is `held`; with a
 * single caller, `Lock` on a held mutex can only wait forever, which the
 * model reports as `Blocked`.
 */
module PollStore {
  import opened Domain
  import opened Failures
  import opened Codec
  import opened Tarantool

  class PollRepository {
    const conn: Conn
    var held: bool

    constructor (conn: Conn)
      ensures this.conn == conn && !held
    {
      this.conn := conn;
      held := false;
    }

    /** Inserts (never replaces) the stored form of `poll` under its identifier. */
    method Save(poll: Poll) returns (r: Outcome)
      requires conn.Valid()
      modifies conn`polls, conn`sent
      ensures conn.Valid()
      ensures conn.sent == old(conn.sent) + 1
      ensures r == if conn.Fails(old(conn.sent)) then Fail(Store(Io))
                   else if poll.id in old(conn.polls) then Fail(Store(DuplicateKey))
                   else Pass
      ensures conn.polls == if r.Pass? then old(conn.polls)[poll.id := NewPollModel(poll)]
                            else old(conn.polls)
    {
      r := conn.InsertPoll(NewPollModel(poll));
    }

    /** The poll stored under `id`, or `PollNotFound`. */
    method GetByID(id: string) returns (r: Result<Poll>)
      requires conn.Valid()
      modifies conn`sent
      ensures conn.sent == old(conn.sent) + 1
      ensures conn.Fails(old(conn.sent)) ==>
                r == Err(Wrapped("could not select typed poll in tarantool", Store(Io)))
      ensures !conn.Fails(old(conn.sent)) && id !in conn.polls ==> r == Err(PollNotFound)
      ensures !conn.Fails(old(conn.sent)) && id in conn.polls ==>
                r == Ok(ToPoll(conn.polls[id])) && r.value.id == id
    {
      var res := conn.SelectPoll(id);
      if res.Err? {
        return Err(Wrapped("could not select typed poll in tarantool", res.error));
      }
      if res.value.None? {
        return Err(PollNotFound);
      }
      r := Ok(ToPoll(res.value.value));
    }

    /**
     * Reads the poll under `id`, applies `updateFn` to it and writes the
     * result back, holding the mutex throughout and releasing it on every
     * path. Only the record of the updated poll's identifier is written,
     * and only when every step succeeds.
     */
    method UpdateByID(id: string, updateFn: Poll -> Result<Poll>) returns (r: Outcome)
      requires conn.Valid()
      modifies this`held, conn`polls, conn`sent
      ensures conn.Valid()
      ensures conn.sent == if old(held) then old(conn.sent)
                             else if conn.Fails(old(conn.sent)) || id !in old(conn.polls)
                                     || updateFn(ToPoll(old(conn.polls)[id])).Err?
                             then old(conn.sent) + 1
                             else old(conn.sent) + 2
      ensures old(held) ==> r == Fail(Blocked) && held && conn.polls == old(conn.polls)
      ensures !old(held) ==> !held
      ensures !old(held) && conn.Fails(old(conn.sent)) ==>
                r == Fail(Wrapped("could not select typed poll in tarantool", Store(Io)))
      ensures !old(held) && !conn.Fails(old(conn.sent)) && id !in old(conn.polls) ==> r == Fail(PollNotFound)
      ensures !old(held) && !conn.Fails(old(conn.sent)) && id in old(conn.polls) ==>
                var updated := updateFn(ToPoll(old(conn.polls)[id]));
                r == if updated.Err? then Fail(Wrapped("could not update poll", updated.error))
                     else if conn.Fails(old(conn.sent) + 1) then Fail(Wrapped("could not replace in tarantool", Store(Io)))
                     else Pass
      ensures conn.polls == if r.Pass? then
                              var updated := updateFn(ToPoll(old(conn.polls)[id])).value;
                              old(conn.polls)[updated.id := NewPollModel(updated)]
                            else old(conn.polls)
    {
      if held {
        return Fail(Blocked);
      }
      held := true;
      var poll := GetByID(id);
      if poll.Err? {
        held := false;
        return Fail(poll.error);
      }
      var updated := updateFn(poll.value);
      if updated.Err? {
        held := false;
        return Fail(Wrapped("could not update poll", updated.error));
      }
      var replaced := conn.ReplacePoll(NewPollModel(updated.value));
      if replaced.Fail? {
        held := false;
        return Fail(Wrapped("could not replace in tarantool", replaced.error));
      }
      held := false;
      r := Pass;
    }

    /**
     * `UpdateByID` as the repository writes it: the mutex is released only
     * when the update succeeds, so each of the three failure returns leaves
     * it held and the next update can never take it.
     */
    method UpdateByIDAsWritten(id: string, updateFn: Poll -> Result<Poll>) returns (r: Outcome)
      requires conn.Valid()
      modifies this`held, conn`polls, conn`sent
      ensures conn.Valid()
      ensures conn.sent == if old(held) then old(conn.sent)
                             else if conn.Fails(old(conn.sent)) || id !in old(conn.polls)
                                     || updateFn(ToPoll(old(conn.polls)[id])).Err?
                             then old(conn.sent) + 1
                             else old(conn.sent) + 2
      ensures old(held) ==> r == Fail(Blocked) && held && conn.polls == old(conn.polls)
      ensures !old(held) ==> (held <==> r.Fail?)
      ensures !old(held) && conn.Fails(old(conn.sent)) ==>
                r == Fail(Wrapped("could not select typed poll in tarantool", Store(Io)))
      ensures !old(held) && !conn.Fails(old(conn.sent)) && id !in old(conn.polls) ==> r == Fail(PollNotFound)
      ensures !old(held) && !conn.Fails(old(conn.sent)) && id in old(conn.polls) ==>
                var updated := updateFn(ToPoll(old(conn.polls)[id]));
                r == if updated.Err? then Fail(Wrapped("could not update poll", updated.error))
                     else if conn.Fails(old(conn.sent) + 1) then Fail(Wrapped("could not replace in tarantool", Store(Io)))
                     else Pass
      ensures conn.polls == if r.Pass? then
                              var updated := updateFn(ToPoll(old(conn.polls)[id])).value;
                              old(conn.polls)[updated.id := NewPollModel(updated)]
                            else old(conn.polls)
    {
      if held {
        return Fail(Blocked);
      }
      held := true;
      var poll := GetByID(id);
      if poll.Err? {
        return Fail(poll.error);
      }
      var updated := updateFn(poll.value);
      if updated.Err? {
        return Fail(Wrapped("could not update poll", updated.error));
      }
      var replaced := conn.ReplacePoll(NewPollModel(updated.value));
      if replaced.Fail? {
        return Fail(Wrapped("could not replace in tarantool", replaced.error));
      }
      held := false;
      r := Pass;
    }

    /** Removes the record under `id`; a missing record is not an error. */
    method DeleteByID(id: string) returns (r: Outcome)
      requires conn.Valid()
      modifies conn`polls, conn`sent
      ensures conn.Valid()
      ensures conn.sent == old(conn.sent) + 1
      ensures r == if conn.Fails(old(conn.sent)) then Fail(Store(Io)) else Pass
      ensures conn.polls == if r.Pass? then old(conn.polls) - {id} else old(conn.polls)
    {
      r := conn.DeletePoll(id);
    }
  }

  /** An update that refuses every poll, as the close callback does for a stranger. */
  function Refuse(p: Poll): Result<Poll>
  {
    Err(UserIsNotPollAuthor)
  }

  /**
   * With the update as written, one refused update leaves the mutex held,
   * and the next update of any poll blocks.
   */
  method LockLeakBlocksNextUpdate(id: string, poll: Poll) returns (first: Outcome, second: Outcome)
    ensures first == Fail(Wrapped("could not update poll", UserIsNotPollAuthor))
    ensures second == Fail(Blocked)
  {
    var conn := new Conn([]);
    var repo := new PollRepository(conn);
    var saved := repo.Save(poll.(id := id));
    first := repo.UpdateByIDAsWritten(id, Refuse);
    second := repo.UpdateByIDAsWritten(id, p => Ok(p));
  }

  /** With the mutex released on every path, a refused update does not stop the next one. */
  method RefusedUpdateReleasesLock(id: string, poll: Poll) returns (first: Outcome, second: Outcome)
    ensures first == Fail(Wrapped("could not update poll", UserIsNotPollAuthor))
    ensures second == Pass
  {
    var conn := new Conn([]);
    var repo := new PollRepository(conn);
    var saved := repo.Save(poll.(id := id));
    first := repo.UpdateByID(id, Refuse);
    second := repo.UpdateByID(id, p => Ok(p));
  }
}
