# Poll voting engine of mattermost-poll, modelled in Dafny

mattermost-poll is a chat bot that runs polls. A user creates a poll with a
question and options. Other users vote by option number. Anyone can read
the counts. The poll's author can close it, after which it takes no
votes, or delete it.

This project models the engine behind those commands:

- the service in `internal/usecase/poll.go`;
- the two repositories that keep polls and answers in a Tarantool
  server;
- the stored records and the field layout they are written in;
- the domain types.

Structure of the model:

- `Failures`: the engine's error values. It also models Go's error
  wrapping (`%w`) and `errors.Is`.
- `Domain`: polls, options and answers.
- `Codec`: the stored records and the conversions to and from them.
  - Their encoding is modelled as a stream of items (`Value`), written by
    an `Encoder` and read back by a `Decoder`.
  - Each record has a layout function. Encoding appends exactly the
    layout. Decoding succeeds exactly on a stream of that shape, and
    returns the one record whose layout it read.
- `Tarantool`: the server as the repositories reach it.
  - `Conn` holds the "polls" and "answers" spaces, keyed by record id.
  - Which requests fail in transport is a fixed script (`faults`). A
    counter (`sent`) tracks how many requests have been sent.
  - A failed request changes nothing.
- `PollStore` and `AnswerStore`: the two repositories, as classes over
  the shared connection.
  - The poll repository's mutex is its `held` field.
  - With one caller, locking a held mutex can only wait forever. The model
    reports this as `Blocked`.
- `Rules`: the pure parts of the service.
  - Answer validation.
  - The two callbacks the service passes to `UpdateByID`: counting a vote,
    and closing a poll.
- `Tally`: the invariant that relates the two spaces.
  - Every option of every stored poll counts exactly the stored answers
    that chose it.
  - Every answer to a stored poll names one of its options.
  - A user has at most one answer per poll.
  - It also holds the lemmas about which writes keep the invariant and
    which break it.
- `Usecase`: the service class `PollService` (the Go `usecase.Poll`).
  - Each method is specified by the requests it sends, in order, and by
    what the spaces hold afterwards.
  - Each method states whether it keeps the tally invariant.
  - The coffee-or-tea walk-through at the end combines them.

Identifiers are strings throughout, as in the repositories and records.
The domain and service files declare them `int64`.

## Model

`Usecase.PollService` is composed from the corrected members of the three findings below: it validates with `Rules.ValidateAnswer`, saves through the corrected `AnswerStore.AnswerRepository.Save`, and updates through the corrected `PollStore.PollRepository.UpdateByID`, and its `Valid` requires the repository mutex to be free between calls. The as-written members stand beside them and are not used by the service.

| member | source | states |
|---|---|---|
| Domain.NewPoll | internal/domain/poll.go:28-35 | the new poll takes votes, has the given question, options (order and counts as given) and author, and its id is left at the zero value |
| Codec.NewPollModel | internal/repository/ttadapter/model.go:31-39 | converting the stored form back gives the same poll, field for field |
| Codec.ToPoll | internal/repository/ttadapter/model.go:41-49 | the poll carries the record's id, question, options, state and author unchanged; with `Codec.NewPollModel` and `Codec.StoredFormOfPoll` the two conversions are inverse |
| Codec.StoredFormOfPoll | internal/repository/ttadapter/model.go:41-49 | every stored poll is the stored form of the poll it converts to, so poll and record correspond one to one |
| Codec.NewAnswerModel | internal/repository/ttadapter/model.go:106-121 | the record gets the generated key; converting back gives the same answer, and the key is dropped |
| Codec.ToAnswer | internal/repository/ttadapter/model.go:115-121 | the answer carries the record's user, poll and vote; only the record's key is dropped |
| Codec.StoredFormOfAnswer | internal/repository/ttadapter/model.go:106-121 | every stored answer is the stored form of its answer under its own key, so the two conversions are inverse |
| Codec.LaysIffPrefix | internal/repository/ttadapter/model.go:51-71 | a stream starts with a poll's layout exactly when its header, fields and option items sit in the expected places |
| Codec.LayoutIsShaped | internal/repository/ttadapter/model.go:73-104 | every stream that starts with a poll's layout has the shape the poll decoder accepts |
| Codec.PollLayoutUnique | internal/repository/ttadapter/model.go:51-71 | two polls whose layouts both start the same stream are equal: the layout determines the record |
| Codec.Encoder.EncodeOptions | internal/repository/ttadapter/model.go:61 | the options are written as a length header followed by one item per option, in order |
| Codec.EncodePollModel | internal/repository/ttadapter/model.go:51-71 | appends exactly the poll's layout: a five-field header, then id, question, options, isActive and author |
| Codec.DecodeOptions | internal/repository/ttadapter/model.go:88-96 | succeeds exactly when the next n items are options; it then returns n options in stream order and consumes exactly those items |
| Codec.DecodePollModel | internal/repository/ttadapter/model.go:73-104 | a header other than five fields gives the length-mismatch error; decoding succeeds exactly on a stream of poll shape, and then consumes exactly the layout of the record returned |
| Codec.EncodeAnswerModel | internal/repository/ttadapter/model.go:123-140 | appends exactly the answer's layout: a four-field header, then id, userId, pollId and vote |
| Codec.DecodeAnswerModel | internal/repository/ttadapter/model.go:142-164 | a header other than four fields gives the length-mismatch error; on a stream that starts with an answer's layout it returns that answer and consumes the layout |
| Codec.PollRoundTrip | internal/repository/ttadapter/model.go:51-104 | decoding the encoding of any poll record gives the record back |
| Codec.AnswerRoundTrip | internal/repository/ttadapter/model.go:123-164 | decoding the encoding of any answer record gives the record back |
| Codec.PollReadAsAnswer | internal/repository/ttadapter/model.go:148-150 | a stored poll read as an answer is refused with a length mismatch of five fields |
| Tarantool.Conn.InsertPoll | internal/repository/tarantool/poll.go:29-33 | an insert adds the record under its id and never overwrites: a taken id gives the duplicate-key error and changes nothing |
| Tarantool.Conn.SelectPoll | internal/repository/tarantool/poll.go:39-45 | a select by primary key returns the stored record, or none |
| Tarantool.Conn.ReplacePoll | internal/repository/tarantool/poll.go:63-67 | a replace writes the record under its id whether or not one is there |
| Tarantool.Conn.DeletePoll | internal/repository/tarantool/poll.go:75-80 | a delete removes the key, if present, and leaves every other record as it was |
| Tarantool.Conn.InsertAnswer | internal/repository/ttadapter/answer.go:34-38 | an insert adds the answer record under its generated key and never overwrites |
| Tarantool.Conn.SelectAnswer | internal/repository/ttadapter/answer.go:44-50 | a select on the (user, poll) index of "answers" finds a record exactly when that pair has one |
| Tarantool.Conn.SelectAnswerInPolls | internal/repository/ttadapter/answer.go:44-50 | the same select sent to "polls", as written: it finds nothing, or finds a poll record that fails to decode as an answer |
| PollStore.PollRepository.constructor | internal/repository/tarantool/poll.go:22-26 | the repository uses the given connection and starts with the mutex free |
| PollStore.PollRepository.Save | internal/repository/tarantool/poll.go:28-35 | inserts the poll's stored form under its id; a taken id or a failed request leaves the space unchanged |
| PollStore.PollRepository.GetByID | internal/repository/tarantool/poll.go:37-52 | a failed request gives the wrapped transport error; a missing id gives PollNotFound; otherwise it returns the stored poll, with that id |
| PollStore.PollRepository.UpdateByID | internal/repository/tarantool/poll.go:54-72 | corrected: the lookup error is passed on unchanged; a callback error comes back wrapped as "could not update poll"; a failed replace comes back wrapped as "could not replace in tarantool"; only a full success writes, and only the updated poll's record; the mutex is free again on every path |
| PollStore.PollRepository.UpdateByIDAsWritten | internal/repository/tarantool/poll.go:54-72 | as written: the same results and writes, but the mutex stays held exactly when the update fails, and an update on a held mutex blocks |
| PollStore.PollRepository.DeleteByID | internal/repository/tarantool/poll.go:74-82 | removes the record under the id and leaves the others; a missing id is not an error |
| PollStore.LockLeakBlocksNextUpdate | internal/repository/tarantool/poll.go:60-61 | as written, a refused update leaves the mutex held and the next update blocks |
| PollStore.RefusedUpdateReleasesLock | internal/repository/tarantool/poll.go:54-72 | with the mutex released on every path, the update after a refused one goes through |
| AnswerStore.AnswerRepository.constructor | internal/repository/ttadapter/answer.go:21-25 | the repository uses the given connection |
| AnswerStore.AnswerRepository.Save | internal/repository/ttadapter/answer.go:27-40 | corrected lookup: an existing answer for the pair gives AnswerAlreadyExists; any other lookup error is passed on; in both cases nothing is inserted; otherwise exactly one record is inserted under the generated key |
| AnswerStore.AnswerRepository.GetByUserAndPoll | internal/repository/ttadapter/answer.go:42-57 | corrected lookup: gives AnswerNotFound exactly when the pair has no stored answer, and otherwise a stored answer of that pair |
| AnswerStore.AnswerRepository.DeleteByPoll | internal/repository/ttadapter/answer.go:59-62 | always reports success; having no modifies clause, it changes no store |
| AnswerStore.AnswerRepository.GetByUserAndPollAsWritten | internal/repository/ttadapter/answer.go:42-57 | as written: the lookup never yields an answer, only AnswerNotFound or an error |
| AnswerStore.AnswerRepository.SaveAsWritten | internal/repository/ttadapter/answer.go:27-40 | as written: Save never reports AnswerAlreadyExists; a failed lookup, or a poll record found in "polls", gives the wrapped lookup error and inserts nothing; with nothing found it inserts |
| AnswerStore.DuplicateAnswerAsWritten | internal/repository/ttadapter/answer.go:45 | as written, the same user's answer to the same poll is saved twice and both records are stored |
| AnswerStore.DuplicateAnswerRefused | internal/repository/ttadapter/answer.go:27-40 | with the lookup reading the answers, the second save of the pair is refused and one record is stored |
| Rules.ValidateAnswerAsWritten | internal/usecase/poll.go:123-131 | as written: only an empty user id is refused, with InvalidUserID |
| Rules.ValidateAnswer | internal/usecase/poll.go:123-131 | corrected: passes exactly when the user id is non-empty and the vote is not negative; InvalidUserID first, then NoSuchOption |
| Rules.CountVote | internal/usecase/poll.go:65-71 | a vote past the last option gives "there is no such option in poll"; a negative one indexes out of range; any other adds one to that option and changes nothing else |
| Rules.CloseBy | internal/usecase/poll.go:86-92 | succeeds exactly for the author; otherwise UserIsNotPollAuthor; on success only isActive changes, to false |
| Rules.CloseIdempotent | internal/usecase/poll.go:86-92 | closing a closed poll gives the same poll again |
| Rules.NegativeVoteAsWritten | internal/usecase/poll.go:123-131 | a named user's negative vote passes the validation as written, then indexes out of range; the corrected validation refuses it |
| Tally.VotesForInsert | internal/domain/poll.go:16-25 | storing one more answer raises the count of its own poll and option by one, and no other count |
| Tally.TallyAfterVote | internal/usecase/poll.go:62-73 | saving a new answer under a fresh key and adding one to its option keeps the tally invariant |
| Tally.TallyAfterSameOptions | internal/usecase/poll.go:85-93 | rewriting a poll without touching its options keeps the invariant |
| Tally.TallyAfterDelete | internal/usecase/poll.go:105-111 | removing a poll keeps the invariant, even though its answers stay behind |
| Tally.TallyAfterCreate | internal/usecase/poll.go:46-48 | adding a zero-count poll that no stored answer names keeps the invariant |
| Tally.UncountedVoteBreaksTally | internal/usecase/poll.go:62-68 | an answer stored with a vote past the last option breaks the invariant |
| Tally.LostIncrementBreaksTally | internal/usecase/poll.go:62-73 | an answer stored while its option keeps the old count breaks the invariant |
| Tally.SavedNotCountedBreaksTally | internal/usecase/poll.go:61-73 | any answer saved without being counted breaks the invariant |
| Usecase.PollService.constructor | internal/usecase/poll.go:39-44 | the service uses the given repositories |
| Usecase.PollService.CreatePoll | internal/usecase/poll.go:46-48 | sends one insert; the poll is stored under its id unless the id is taken or the request fails; a zero-count poll that no answer names keeps the invariant |
| Usecase.PollService.IsPollActive | internal/usecase/poll.go:115-121 | returns the stored poll's isActive; a missing poll or a failed read comes back wrapped as "could not retrieve poll" |
| Usecase.PollService.AddAnswer | internal/usecase/poll.go:50-75 | corrected: over ValidateAnswer, AnswerRepository.Save and UpdateByID; details below the table |
| Usecase.PollService.RecordVote | internal/usecase/poll.go:61-74 | corrected: over AnswerRepository.Save and UpdateByID; the two writes of AddAnswer: a failed request gives its own wrapped I/O error, and success means all four requests went through; an existing answer for the pair is refused before any write; with the requests through, the answer is saved, then counted or, past the last option, refused; it states the same tally outcome as AddAnswer |
| Usecase.PollService.GetPollResultsByID | internal/usecase/poll.go:77-83 | returns the stored options with their counts; a missing poll or a failed read comes back wrapped as "could not retrieve poll" |
| Usecase.PollService.ClosePollByID | internal/usecase/poll.go:85-93 | corrected: over UpdateByID; details below the table |
| Usecase.PollService.DeletePollByID | internal/usecase/poll.go:95-113 | details below the table |
| Usecase.CountedVote | internal/usecase/poll.go:62-74 | with no failing request, an admitted vote for an existing option succeeds, stores the answer and counts it |
| Usecase.FirstVotes | internal/usecase/poll.go:50-75 | on a fresh ballot, one vote for coffee and one for tea both succeed and the counts become 1 and 1 |
| Usecase.SecondVoteAndClose | internal/usecase/poll.go:50-93 | corrected: over ValidateAnswer, AnswerRepository.Save and UpdateByID; on that ballot, a second vote by the same user is refused, a stranger cannot close, the author can, and a later vote meets PollIsNotActive |
| Usecase.CoffeeOrTea | internal/usecase/poll.go:46-93 | corrected: over ValidateAnswer, AnswerRepository.Save and UpdateByID; the whole walk-through on a fresh store: create, two votes, counts 1 and 1, duplicate refused, stranger refused, author closes, late vote refused |

Details of the longer rows in the table above:

- `Usecase.PollService.AddAnswer`:
  - An empty user id gives InvalidUserID.
  - A negative vote gives NoSuchOption.
  - A missing poll gives PollNotFound, wrapped.
  - A closed poll gives PollIsNotActive.
  - An existing answer for the pair gives AnswerAlreadyExists, wrapped as "could not save answer".
  - None of these writes anything.
  - A failed poll lookup gives the I/O error wrapped as "could not select typed poll in tarantool", then as "could not retrieve poll".
  - A failed answer lookup gives it wrapped as "could not select typed answer in tarantool", then as "could not save answer".
  - A failed answer insert gives it wrapped as "could not save answer"; a taken answer key gives the duplicate-key error wrapped the same way.
  - A failed poll read inside the update gives it wrapped as "could not select typed poll in tarantool", then as "could not update poll".
  - A failed replace gives it wrapped as "could not replace in tarantool", then as "could not update poll".
  - Success means all five requests went through.
  - With the requests through, the answer is saved.
  - Then either the option gains one vote, or a vote past the last option gives a doubly wrapped "no such option" error.
  - A failure never changes the polls.
  - If the stores agreed before, they agree afterwards exactly when the call succeeds or no answer was saved.
- `Usecase.PollService.ClosePollByID`:
  - A failed read gives the I/O error wrapped as "could not select typed poll in tarantool".
  - A missing poll gives PollNotFound.
  - A failed replace by the author gives the I/O error wrapped as "could not replace in tarantool".
  - Success means both requests went through.
  - A stranger gets UserIsNotPollAuthor, wrapped as "could not update poll".
  - With the requests through, the author succeeds.
  - Only isActive changes, to false.
  - A closed poll stays as it is.
  - The answers are untouched.
  - The invariant is kept.
- `Usecase.PollService.DeletePollByID`:
  - A failed read or a missing poll gives the error wrapped as "could not retrieve poll".
  - A stranger gets UserIsNotPollAuthor, unwrapped.
  - The author removes the poll record.
  - A failed delete gives the error wrapped as "could not delete poll".
  - The answers are left in place.
  - The invariant is kept.

## Left out

- Context values, deadlines and cancellation are left out. Transport failures are the `faults` script instead.
- The MessagePack byte format is left out: `Value` stands for one encoded item.
- The encoder never fails. Writes into Go's buffer do not fail in practice, and the error returns of `EncodeMsgpack` are left out.
- A nil options slice is left out. Go encodes it as nil rather than as an empty array; decoding that reads the length -1, and `make` at internal/repository/ttadapter/model.go:91 panics. The model has no nil sequence.
- A Go panic is represented as a returned error value (`Panic`), which callers wrap and return like any other error; `UpdateByID` also releases the mutex on that path. In Go the panics at internal/usecase/poll.go:69 and internal/repository/ttadapter/model.go:91 unwind the goroutine started at internal/gateway/bot/bot.go:105, which has no recover, so the process ends.
- A nil `*domain.Answer` is left out. `validateAnswer` refuses it with "answer is nil", and Dafny values cannot be nil.
- `Votes` and `Vote` are unbounded integers. The 64-bit wrap-around of `Votes++` and the `int64` conversion in `EncodeInt` are not modelled.
- Concurrency is left out: one caller at a time. The mutex is modelled only as far as one caller can observe it. Locking a held mutex yields `Blocked` in place of waiting forever.
- The spaces hold record values, not encoded tuples. This is justified by `Codec.PollRoundTrip` and `Codec.AnswerRoundTrip`.
- Which record the "user_poll" index of the "polls" space would find is a parameter (`hit`). That index definition is not part of this model.
- The generated answer key (`uuid.NewString()`) is a parameter (`freshId`). A collision with a stored key is a duplicate-key error.
- The database schema, `cmd/mattermost-poll/main.go` and the chat front end `internal/gateway/bot/bot.go` are not part of this model.
- `AnswerRepository.DeleteByUserAndPoll` is declared in the service's interface, but no core file defines it, so it is not part of this model.
- Usecase.PollService.AddAnswer does not state how many requests it sends, only that the count does not go down. Its results on each failing request are stated.
- Usecase.PollService.RecordVote: the count of requests sent is not stated, as for AddAnswer.
- Usecase.PollService.ClosePollByID: the count of requests sent is not stated, as for AddAnswer.
- Usecase.PollService.DeletePollByID: the count of requests sent is not stated, as for AddAnswer.
- A vote at or past the last option is modelled as written. The answer stays saved, the poll is not updated, and `Tally.UncountedVoteBreaksTally` shows the invariant breaking. The engine's comment marks the missing transaction as a known gap.

## Findings

| source | as written | input that shows it | evidently intended | confidence | as-written member | corrected member |
|---|---|---|---|---|---|---|
| internal/repository/tarantool/poll.go:55-70 | `mu` is unlocked only on the success path; the returns at lines 58, 61 and 68 keep it locked | `ClosePollByID` by a user who is not the author, then any vote or close: the second `UpdateByID` waits on `mu` forever | unlock on every path, as with `defer r.mu.Unlock()` | high, not executed | PollStore.PollRepository.UpdateByIDAsWritten, PollStore.LockLeakBlocksNextUpdate | PollStore.PollRepository.UpdateByID, PollStore.RefusedUpdateReleasesLock, Usecase.PollService.ClosePollByID, Usecase.PollService.RecordVote, Usecase.SecondVoteAndClose, Usecase.CoffeeOrTea |
| internal/repository/ttadapter/answer.go:45 | the duplicate-answer lookup selects from `pollSpace` instead of `answerSpace` | the same user saves an answer to the same poll twice while the lookup in "polls" finds nothing (`hit` is None): both saves succeed and two answers are stored; if that lookup fails or finds a poll record, every save fails with the wrapped lookup error instead | select from the "answers" space, so the second save is refused | high, not executed | AnswerStore.AnswerRepository.SaveAsWritten, AnswerStore.DuplicateAnswerAsWritten | AnswerStore.AnswerRepository.Save, AnswerStore.DuplicateAnswerRefused, Usecase.PollService.RecordVote, Usecase.PollService.AddAnswer |
| internal/usecase/poll.go:123-131 | `validateAnswer` accepts any vote, and the callback checks only `len(Options) <= Vote` | a named user votes `-1`: the answer is saved, then `poll.Options[-1]` panics with index out of range | refuse a negative vote as no such option | high, not executed | Rules.ValidateAnswerAsWritten, Rules.NegativeVoteAsWritten | Rules.ValidateAnswer, Usecase.PollService.AddAnswer |
