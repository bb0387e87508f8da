/**
 * The cross-store invariant of the voting engine. Each option's `votes`
 * is documented as the number of users who chose it (internal/domain/poll.go)
 * and each answer's `vote` as an index into its poll's options; together:
 * every option of every stored poll counts exactly the stored answers for
 * that poll and option, every answer of a stored poll names one of its
 * options, and a pair (user, poll) has at most one answer.
 */
module Tally {
  import opened Domain
  import opened Codec
  import opened Tarantool
  import opened Rules

  /** The keys of the answers for option `option` of poll `pollId`. */
  ghost function Voters(answers: map<string, AnswerModel>, pollId: string, option: int): set<string>
  {
    set k | k in answers && answers[k].pollId == pollId && answers[k].vote == option
  }

  ghost function VotesFor(answers: map<string, AnswerModel>, pollId: string, option: int): nat
  {
    |Voters(answers, pollId, option)|
  }

  ghost predicate Tallied(polls: map<string, PollModel>, answers: map<string, AnswerModel>)
  {
    forall id, i :: id in polls && 0 <= i < |polls[id].options| ==>
      polls[id].options[i].votes == VotesFor(answers, id, i)
  }

  ghost predicate OneAnswerPerPair(answers: map<string, AnswerModel>)
  {
    forall k1, k2 ::
      (k1 in answers && k2 in answers
       && answers[k1].userId == answers[k2].userId && answers[k1].pollId == answers[k2].pollId) ==> k1 == k2
  }

  ghost predicate VotesInRange(polls: map<string, PollModel>, answers: map<string, AnswerModel>)
  {
    forall k :: k in answers && answers[k].pollId in polls ==>
      0 <= answers[k].vote < |polls[answers[k].pollId].options|
  }

  ghost predicate Consistent(polls: map<string, PollModel>, answers: map<string, AnswerModel>)
  {
    Tallied(polls, answers) && OneAnswerPerPair(answers) && VotesInRange(polls, answers)
  }

  /** Storing one more answer adds one to the count of its own poll and option, and to no other. */
  lemma VotesForInsert(
    answers: map<string, AnswerModel>, k: string, m: AnswerModel, pollId: string, option: int)
    requires k !in answers
    ensures VotesFor(answers[k := m], pollId, option)
            == VotesFor(answers, pollId, option) + if m.pollId == pollId && m.vote == option then 1 else 0
  {
    var before := Voters(answers, pollId, option);
    var after := Voters(answers[k := m], pollId, option);
    if m.pollId == pollId && m.vote == option {
      assert after == before + {k};
    } else {
      assert after == before;
    }
  }

  /**
   * A vote for an existing option of a stored poll, by a user without an
   * answer for it, keeps the invariant when the answer is stored under a
   * fresh key and the option gains one vote.
   */
  lemma TallyAfterVote(
    polls: map<string, PollModel>, answers: map<string, AnswerModel>, k: string, a: Answer, counted: Poll)
    requires Consistent(polls, answers)
    requires k !in answers && !HasAnswer(answers, a.userId, a.pollId)
    requires a.pollId in polls && Incremented(ToPoll(polls[a.pollId]), counted, a.vote)
    ensures Consistent(polls[a.pollId := NewPollModel(counted)], answers[k := NewAnswerModel(a, k)])
  {
    var polls' := polls[a.pollId := NewPollModel(counted)];
    var answers' := answers[k := NewAnswerModel(a, k)];
    forall id, i | id in polls' && 0 <= i < |polls'[id].options|
      ensures polls'[id].options[i].votes == VotesFor(answers', id, i)
    {
      VotesForInsert(answers, k, NewAnswerModel(a, k), id, i);
    }
    assert forall j :: j in answers ==> !(answers[j].userId == a.userId && answers[j].pollId == a.pollId);
  }

  /** Replacing a stored poll by one with the same options keeps the invariant. */
  lemma TallyAfterSameOptions(
    polls: map<string, PollModel>, answers: map<string, AnswerModel>, id: string, m: PollModel)
    requires Consistent(polls, answers)
    requires id in polls && m.options == polls[id].options
    ensures Consistent(polls[id := m], answers)
  {
  }

  /** Removing a poll keeps the invariant, whatever answers to it are left behind. */
  lemma TallyAfterDelete(polls: map<string, PollModel>, answers: map<string, AnswerModel>, id: string)
    requires Consistent(polls, answers)
    ensures Consistent(polls - {id}, answers)
  {
  }

  /**
   * Adding a poll whose options have no votes keeps the invariant, provided
   * no stored answer names its identifier.
   */
  lemma TallyAfterCreate(polls: map<string, PollModel>, answers: map<string, AnswerModel>, m: PollModel)
    requires Consistent(polls, answers)
    requires m.id !in polls
    requires forall k :: k in answers ==> answers[k].pollId != m.id
    requires forall i :: 0 <= i < |m.options| ==> m.options[i].votes == 0
    ensures Consistent(polls[m.id := m], answers)
  {
    forall id, i | id in polls[m.id := m] && 0 <= i < |polls[m.id := m][id].options|
      ensures polls[m.id := m][id].options[i].votes == VotesFor(answers, id, i)
    {
      if id == m.id {
        assert Voters(answers, id, i) == {};
      }
    }
  }

  /**
   * An answer stored for a stored poll but not counted, because its vote is
   * past the last option, breaks the invariant.
   */
  lemma UncountedVoteBreaksTally(
    polls: map<string, PollModel>, answers: map<string, AnswerModel>, k: string, a: Answer)
    requires a.pollId in polls && a.vote >= |polls[a.pollId].options|
    ensures !Consistent(polls, answers[k := NewAnswerModel(a, k)])
  {
    var answers' := answers[k := NewAnswerModel(a, k)];
    assert k in answers' && answers'[k].pollId in polls;
  }

  /**
   * An answer stored for an existing option while its poll keeps its old
   * count breaks the invariant.
   */
  lemma LostIncrementBreaksTally(
    polls: map<string, PollModel>, answers: map<string, AnswerModel>, k: string, a: Answer)
    requires Consistent(polls, answers)
    requires k !in answers && a.pollId in polls && 0 <= a.vote < |polls[a.pollId].options|
    ensures !Consistent(polls, answers[k := NewAnswerModel(a, k)])
  {
    VotesForInsert(answers, k, NewAnswerModel(a, k), a.pollId, a.vote);
  }

  /**
   * An answer to a stored poll saved without its vote being counted breaks
   * the invariant, whether the vote names an option or lies past the last.
   */
  lemma SavedNotCountedBreaksTally(
    polls: map<string, PollModel>, answers: map<string, AnswerModel>, k: string, a: Answer)
    requires Consistent(polls, answers)
    requires k !in answers && a.pollId in polls && 0 <= a.vote
    ensures !Consistent(polls, answers[k := NewAnswerModel(a, k)])
  {
    if a.vote < |polls[a.pollId].options| {
      LostIncrementBreaksTally(polls, answers, k, a);
    } else {
      UncountedVoteBreaksTally(polls, answers, k, a);
    }
  }
}
