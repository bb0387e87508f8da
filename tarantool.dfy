/**
 * The storage server as the repositories see it through one connection:
 * the "polls" and "answers" spaces, each keyed by its records' `ID` field,
 * and the outcome of the coming requests on the wire.
 *
 * The connection is not a core file; it is modelled only as far as the
 * repositories use it. A request either fails as a whole (and changes
 * nothing) or is carried out; which requests fail is given by `faults`,
 * one entry per request in the order they are sent.
 */
module Tarantool {
  import opened Failures
  import opened Codec

  /** An answer for the pair (`userId`, `pollId`) is stored. */
  ghost predicate HasAnswer(answers: map<string, AnswerModel>, userId: string, pollId: string)
  {
    exists k :: k in answers && answers[k].userId == userId && answers[k].pollId == pollId
  }

  class Conn {
    var polls: map<string, PollModel>
    var answers: map<string, AnswerModel>
    /** The outcome of every request, in the order they are sent: `true` for one that fails. */
    const faults: seq<bool>
    /** How many requests have been sent. */
    var sent: nat

    /** Request number `i` fails. */
    predicate Fails(i: nat)
    {
      i < |faults| && faults[i]
    }

    /** None of the `n` requests from number `from` on fails. */
    predicate Healthy(from: nat, n: nat)
    {
      forall i :: from <= i < from + n ==> !Fails(i)
    }

    /** Every record sits under its own primary key. */
    ghost predicate Valid()
      reads this
    {
      && (forall id :: id in polls ==> polls[id].id == id)
      && (forall id :: id in answers ==> answers[id].id == id)
    }

    constructor (faults: seq<bool>)
      ensures Valid()
      ensures polls == map[] && answers == map[] && this.faults == faults && sent == 0
    {
      polls := map[];
      answers := map[];
      this.faults := faults;
      sent := 0;
    }

    /** Sends one request; tells whether it reached the server and was carried out. */
    method Send() returns (ok: bool)
      modifies this`sent
      ensures ok == !Fails(old(sent))
      ensures sent == old(sent) + 1
    {
      ok := !(sent < |faults| && faults[sent]);
      sent := sent + 1;
    }

    /** An insert into "polls": refused when the key is taken. */
    method InsertPoll(m: PollModel) returns (r: Outcome)
      requires Valid()
      modifies this`polls, this`sent
      ensures Valid()
      ensures sent == old(sent) + 1
      ensures r == if Fails(old(sent)) then Fail(Store(Io))
                   else if m.id in old(polls) then Fail(Store(DuplicateKey))
                   else Pass
      ensures polls == if r.Pass? then old(polls)[m.id := m] else old(polls)
    {
      var ok := Send();
      if !ok {
        return Fail(Store(Io));
      }
      if m.id in polls {
        return Fail(Store(DuplicateKey));
      }
      polls := polls[m.id := m];
      r := Pass;
    }

    /** A select on the primary index of "polls", limited to one record. */
    method SelectPoll(id: string) returns (r: Result<Option<PollModel>>)
      modifies this`sent
      ensures sent == old(sent) + 1
      ensures r == if Fails(old(sent)) then Err(Store(Io))
                   else if id in polls then Ok(Some(polls[id]))
                   else Ok(None)
    {
      var ok := Send();
      if !ok {
        return Err(Store(Io));
      }
      r := if id in polls then Ok(Some(polls[id])) else Ok(None);
    }

    /** A replace in "polls": writes the record under its key, whether or not one is there. */
    method ReplacePoll(m: PollModel) returns (r: Outcome)
      requires Valid()
      modifies this`polls, this`sent
      ensures Valid()
      ensures sent == old(sent) + 1
      ensures r == if Fails(old(sent)) then Fail(Store(Io)) else Pass
      ensures polls == if r.Pass? then old(polls)[m.id := m] else old(polls)
    {
      var ok := Send();
      if !ok {
        return Fail(Store(Io));
      }
      polls := polls[m.id := m];
      r := Pass;
    }

    /** A delete on the primary index of "polls"; deleting a missing key is not an error. */
    method DeletePoll(id: string) returns (r: Outcome)
      requires Valid()
      modifies this`polls, this`sent
      ensures Valid()
      ensures sent == old(sent) + 1
      ensures r == if Fails(old(sent)) then Fail(Store(Io)) else Pass
      ensures polls == if r.Pass? then old(polls) - {id} else old(polls)
    {
      var ok := Send();
      if !ok {
        return Fail(Store(Io));
      }
      polls := polls - {id};
      r := Pass;
    }

    /** An insert into "answers": refused when the key is taken. */
    method InsertAnswer(m: AnswerModel) returns (r: Outcome)
      requires Valid()
      modifies this`answers, this`sent
      ensures Valid()
      ensures sent == old(sent) + 1
      ensures r == if Fails(old(sent)) then Fail(Store(Io))
                   else if m.id in old(answers) then Fail(Store(DuplicateKey))
                   else Pass
      ensures answers == if r.Pass? then old(answers)[m.id := m] else old(answers)
    {
      var ok := Send();
      if !ok {
        return Fail(Store(Io));
      }
      if m.id in answers {
        return Fail(Store(DuplicateKey));
      }
      answers := answers[m.id := m];
      r := Pass;
    }

    /**
     * A select on the "user_poll" index of "answers", limited to one record:
     * some answer of the pair when there is one.
     */
    method SelectAnswer(userId: string, pollId: string) returns (r: Result<Option<AnswerModel>>)
      modifies this`sent
      ensures sent == old(sent) + 1
      ensures Fails(old(sent)) ==> r == Err(Store(Io))
      ensures !Fails(old(sent)) ==> r.Ok? && (r.value.Some? <==> HasAnswer(answers, userId, pollId))
      ensures r.Ok? && r.value.Some? ==>
                r.value.value in answers.Values && r.value.value.userId == userId && r.value.value.pollId == pollId
    {
      var ok := Send();
      if !ok {
        return Err(Store(Io));
      }
      if k :| k in answers && answers[k].userId == userId && answers[k].pollId == pollId {
        r := Ok(Some(answers[k]));
      } else {
        r := Ok(None);
      }
    }

    /**
     * A select on "polls" for the key (`userId`, `pollId`) whose records are
     * read as answers. Which record the index finds, if any, depends on an
     * index definition that is not part of the repository; `hit` names it.
     * A poll record has five fields, so reading it as an answer fails.
     */
    method SelectAnswerInPolls(userId: string, pollId: string, hit: Option<string>)
      returns (r: Result<Option<AnswerModel>>)
      requires hit.Some? ==> hit.value in polls
      modifies this`sent
      ensures sent == old(sent) + 1
      ensures r == if Fails(old(sent)) then Err(Store(Io))
                   else if hit.None? then Ok(None)
                   else Err(Decode(LengthMismatch(PollModelFields)))
    {
      var ok := Send();
      if !ok {
        return Err(Store(Io));
      }
      if hit.None? {
        return Ok(None);
      }
      var answer := PollReadAsAnswer(polls[hit.value]);
      match answer
      case Ok(a) => r := Ok(Some(a));
      case Err(e) => r := Err(e);
    }
  }
}
