/**
 * The records of the poll domain (internal/domain/poll.go).
 *
 * Identifiers are strings, as in the storage layer that persists them.
 */
module Domain {

  /** One choice of a poll; `votes` is meant to be the number of users who chose it. */
  datatype PollOption = PollOption(text: string, votes: int)

  /** A question, its ordered options, whether it still takes votes, and its author. */
  datatype Poll = Poll(
    id: string,
    question: string,
    options: seq<PollOption>,
    isActive: bool,
    author: string)

  /** One user's vote: `vote` is meant to be an index into the poll's options. */
  datatype Answer = Answer(userId: string, pollId: string, vote: int)

  /**
   * A new poll: active, with the question, options and author as given and
   * the identifier left at its zero value for the caller to assign.
   */
  function NewPoll(question: string, options: seq<PollOption>, author: string): (p: Poll)
    ensures p.isActive
    ensures p.question == question && p.options == options && p.author == author
    ensures p.id == ""
  {
    Poll(id := "", question := question, options := options, isActive := true, author := author)
  }
}
