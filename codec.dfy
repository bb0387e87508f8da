/**
 * Storage records and their field layout (internal/repository/ttadapter/model.go).
 *
 * A record is stored as a sequence of values: an array header giving the
 * number of fields, then the fields in a fixed order. The byte format of
 * MessagePack is not modelled; `Value` stands for one encoded item, and a
 * poll option, which the library encodes as a whole struct, is one item.
 */
module Codec {
  import opened Domain
  import opened Failures

  /** The stored form of a poll. */
  datatype PollModel = PollModel(
    id: string,
    question: string,
    options: seq<PollOption>,
    isActive: bool,
    author: string)

  /** The stored form of an answer; `id` is the record's own primary key. */
  datatype AnswerModel = AnswerModel(id: string, userId: string, pollId: string, vote: int)

  const PollModelFields: int := 5
  const AnswerModelFields: int := 4

  /** The stored form of a poll; converting it back gives the poll unchanged. */
  function NewPollModel(p: Poll): (m: PollModel)
    ensures ToPoll(m) == p
  {
    PollModel(p.id, p.question, p.options, p.isActive, p.author)
  }

  /** The poll a stored record holds: every field carried over unchanged. */
  function ToPoll(m: PollModel): (p: Poll)
    ensures p.id == m.id && p.question == m.question && p.options == m.options
    ensures p.isActive == m.isActive && p.author == m.author
  {
    Poll(m.id, m.question, m.options, m.isActive, m.author)
  }

  /** Every stored poll is the stored form of the poll it converts to. */
  lemma StoredFormOfPoll(m: PollModel)
    ensures NewPollModel(ToPoll(m)) == m
  {
  }

  /**
   * The stored form of an answer under a freshly generated key; converting
   * it back drops the key and gives the answer unchanged.
   */
  function NewAnswerModel(a: Answer, freshId: string): (m: AnswerModel)
    ensures m.id == freshId
    ensures ToAnswer(m) == a
  {
    AnswerModel(freshId, a.userId, a.pollId, a.vote)
  }

  /** The answer a stored record holds; only the record's own key is dropped. */
  function ToAnswer(m: AnswerModel): (a: Answer)
    ensures a.userId == m.userId && a.pollId == m.pollId && a.vote == m.vote
  {
    Answer(m.userId, m.pollId, m.vote)
  }

  /** Every stored answer is the stored form of its answer under its own key. */
  lemma StoredFormOfAnswer(m: AnswerModel)
    ensures NewAnswerModel(ToAnswer(m), m.id) == m
  {
  }

  /** One encoded item. */
  datatype Value =
    | Len(n: int)                // array header; a nil slice reads back as -1
    | Str(s: string)
    | Flag(b: bool)
    | Num(i: int)
    | Opt(option: PollOption)    // one poll option, encoded as a struct

  function OptionValues(options: seq<PollOption>): seq<Value>
  {
    seq(|options|, j requires 0 <= j < |options| => Opt(options[j]))
  }

  /** The field sequence of a stored poll: ID, Question, Options, IsActive, Author. */
  function PollLayout(m: PollModel): seq<Value>
  {
    [Len(PollModelFields), Str(m.id), Str(m.question), Len(|m.options|)]
    + OptionValues(m.options)
    + [Flag(m.isActive), Str(m.author)]
  }

  /** The field sequence of a stored answer: ID, UserID, PollID, Vote. */
  function AnswerLayout(m: AnswerModel): seq<Value>
  {
    [Len(AnswerModelFields), Str(m.id), Str(m.userId), Str(m.pollId), Num(m.vote)]
  }

  /** `s` starts with the layout of `m`, stated position by position. */
  ghost predicate Lays(m: PollModel, s: seq<Value>)
  {
    var n := |m.options|;
    && |s| >= n + 6
    && s[0] == Len(PollModelFields) && s[1] == Str(m.id) && s[2] == Str(m.question)
    && s[3] == Len(n)
    && s[4..4 + n] == OptionValues(m.options)
    && s[4 + n] == Flag(m.isActive) && s[5 + n] == Str(m.author)
  }

  lemma LaysIffPrefix(m: PollModel, s: seq<Value>)
    ensures PollLayout(m) <= s <==> Lays(m, s)
  {
    var layout := PollLayout(m);
    var n := |m.options|;
    assert |layout| == n + 6;
    assert layout[4..4 + n] == OptionValues(m.options);
    if Lays(m, s) {
      assert layout == s[..4] + s[4..4 + n] + s[4 + n..n + 6];
      assert layout == s[..|layout|];
    }
  }

  /**
   * `s` starts with something of the shape of a stored poll: a five-field
   * header, two strings, an options header with a length that is not
   * negative, that many options, a flag and a string.
   */
  ghost predicate PollShaped(s: seq<Value>)
  {
    && |s| >= 4
    && s[0] == Len(PollModelFields) && s[1].Str? && s[2].Str? && s[3].Len? && s[3].n >= 0
    && |s| >= s[3].n + 6
    && (forall j :: 4 <= j < 4 + s[3].n ==> s[j].Opt?)
    && s[4 + s[3].n].Flag? && s[5 + s[3].n].Str?
  }

  /** A stream that starts with the layout of a poll has the shape of one. */
  lemma LayoutIsShaped(m: PollModel, s: seq<Value>)
    requires PollLayout(m) <= s
    ensures PollShaped(s)
  {
    LaysIffPrefix(m, s);
    var n := |m.options|;
    forall j | 4 <= j < 4 + n ensures s[j].Opt? {
      assert s[4..4 + n][j - 4] == Opt(m.options[j - 4]);
    }
  }

  /**
   * Two layouts that both start the same stream belong to the same record:
   * a reader that recovers a record recovers the one that was written.
   */
  lemma PollLayoutUnique(m1: PollModel, m2: PollModel, s: seq<Value>)
    requires PollLayout(m1) <= s && PollLayout(m2) <= s
    ensures m1 == m2
  {
    LaysIffPrefix(m1, s);
    LaysIffPrefix(m2, s);
    var n := |m1.options|;
    assert Len(n) == s[3] == Len(|m2.options|);
    forall j | 0 <= j < n ensures m1.options[j] == m2.options[j] {
      assert Opt(m1.options[j]) == s[4..4 + n][j] == Opt(m2.options[j]);
    }
    assert Flag(m1.isActive) == s[4 + n] == Flag(m2.isActive);
    assert Str(m1.author) == s[5 + n] == Str(m2.author);
  }

  /** The stream a record is written to. */
  class Encoder {
    var out: seq<Value>

    constructor ()
      ensures out == []
    {
      out := [];
    }

    method EncodeArrayLen(n: int)
      modifies this
      ensures out == old(out) + [Len(n)]
    {
      out := out + [Len(n)];
    }

    method EncodeString(s: string)
      modifies this
      ensures out == old(out) + [Str(s)]
    {
      out := out + [Str(s)];
    }

    method EncodeBool(b: bool)
      modifies this
      ensures out == old(out) + [Flag(b)]
    {
      out := out + [Flag(b)];
    }

    method EncodeInt(i: int)
      modifies this
      ensures out == old(out) + [Num(i)]
    {
      out := out + [Num(i)];
    }

    method EncodeOption(o: PollOption)
      modifies this
      ensures out == old(out) + [Opt(o)]
    {
      out := out + [Opt(o)];
    }

    /** The library's encoding of a slice of options: its length, then each element in order. */
    method EncodeOptions(options: seq<PollOption>)
      modifies this
      ensures out == old(out) + [Len(|options|)] + OptionValues(options)
    {
      EncodeArrayLen(|options|);
      var i := 0;
      while i < |options|
        invariant 0 <= i <= |options|
        invariant out == old(out) + [Len(|options|)] + OptionValues(options[..i])
      {
        assert OptionValues(options[..i + 1]) == OptionValues(options[..i]) + [Opt(options[i])];
        EncodeOption(options[i]);
        i := i + 1;
      }
      assert options[..i] == options;
    }
  }

  /** The stream a record is read from; `pos` is the next item to read. */
  class Decoder {
    const input: seq<Value>
    var pos: nat

    ghost predicate Valid()
      reads this
    {
      pos <= |input|
    }

    constructor (input: seq<Value>)
      ensures Valid() && this.input == input && pos == 0
    {
      this.input := input;
      pos := 0;
    }

    /** The error a read reports when the next item is missing or of the wrong kind. */
    function Failure(): Error
      reads this
    {
      if pos < |input| then Decode(TypeMismatch) else Decode(EndOfInput)
    }

    method DecodeArrayLen() returns (r: Result<int>)
      requires Valid()
      modifies this`pos
      ensures Valid()
      ensures if old(pos) < |input| && input[old(pos)].Len?
              then r == Ok(input[old(pos)].n) && pos == old(pos) + 1
              else r == Err(old(Failure())) && pos == old(pos)
    {
      if pos < |input| && input[pos].Len? {
        r := Ok(input[pos].n);
        pos := pos + 1;
      } else {
        r := Err(Failure());
      }
    }

    method DecodeString() returns (r: Result<string>)
      requires Valid()
      modifies this`pos
      ensures Valid()
      ensures if old(pos) < |input| && input[old(pos)].Str?
              then r == Ok(input[old(pos)].s) && pos == old(pos) + 1
              else r == Err(old(Failure())) && pos == old(pos)
    {
      if pos < |input| && input[pos].Str? {
        r := Ok(input[pos].s);
        pos := pos + 1;
      } else {
        r := Err(Failure());
      }
    }

    method DecodeBool() returns (r: Result<bool>)
      requires Valid()
      modifies this`pos
      ensures Valid()
      ensures if old(pos) < |input| && input[old(pos)].Flag?
              then r == Ok(input[old(pos)].b) && pos == old(pos) + 1
              else r == Err(old(Failure())) && pos == old(pos)
    {
      if pos < |input| && input[pos].Flag? {
        r := Ok(input[pos].b);
        pos := pos + 1;
      } else {
        r := Err(Failure());
      }
    }

    method DecodeInt() returns (r: Result<int>)
      requires Valid()
      modifies this`pos
      ensures Valid()
      ensures if old(pos) < |input| && input[old(pos)].Num?
              then r == Ok(input[old(pos)].i) && pos == old(pos) + 1
              else r == Err(old(Failure())) && pos == old(pos)
    {
      if pos < |input| && input[pos].Num? {
        r := Ok(input[pos].i);
        pos := pos + 1;
      } else {
        r := Err(Failure());
      }
    }

    method DecodeOption() returns (r: Result<PollOption>)
      requires Valid()
      modifies this`pos
      ensures Valid()
      ensures if old(pos) < |input| && input[old(pos)].Opt?
              then r == Ok(input[old(pos)].option) && pos == old(pos) + 1
              else r == Err(old(Failure())) && pos == old(pos)
    {
      if pos < |input| && input[pos].Opt? {
        r := Ok(input[pos].option);
        pos := pos + 1;
      } else {
        r := Err(Failure());
      }
    }
  }

  /** `PollModel.EncodeMsgpack`: five fields, in the order of `PollLayout`. */
  method EncodePollModel(m: PollModel, e: Encoder)
    modifies e
    ensures e.out == old(e.out) + PollLayout(m)
  {
    e.EncodeArrayLen(PollModelFields);
    e.EncodeString(m.id);
    e.EncodeString(m.question);
    e.EncodeOptions(m.options);
    e.EncodeBool(m.isActive);
    e.EncodeString(m.author);
  }

  /**
   * The loop of `PollModel.DecodeMsgpack` that fills a slice of `n` options
   * in place: it succeeds when the next `n` items are options, and then
   * consumes exactly their encoding.
   */
  method DecodeOptions(d: Decoder, n: nat) returns (r: Result<seq<PollOption>>)
    requires d.Valid()
    modifies d`pos
    ensures d.Valid()
    ensures r.Ok? <==> old(d.pos) + n <= |d.input| && forall j :: old(d.pos) <= j < old(d.pos) + n ==> d.input[j].Opt?
    ensures r.Ok? ==> |r.value| == n && d.pos == old(d.pos) + n
                      && d.input[old(d.pos)..d.pos] == OptionValues(r.value)
  {
    var options := new PollOption[n];
    var i := 0;
    while i < n
      invariant d.Valid() && 0 <= i <= n
      invariant d.pos == old(d.pos) + i
      invariant forall j :: 0 <= j < i ==> d.input[old(d.pos) + j] == Opt(options[j])
    {
      var o := d.DecodeOption();
      if o.Err? {
        return Err(o.error);
      }
      options[i] := o.value;
      i := i + 1;
    }
    r := Ok(options[..]);
    assert d.input[old(d.pos)..d.pos] == OptionValues(options[..]) by {
      forall j | 0 <= j < n ensures d.input[old(d.pos)..d.pos][j] == OptionValues(options[..])[j] {
        assert d.input[old(d.pos) + j] == Opt(options[j]);
      }
    }
  }

  /**
   * `PollModel.DecodeMsgpack`: reads the fields back in the same order.
   * A header other than five fields is refused; the read succeeds exactly
   * when the stream has the shape of a stored poll, and then consumes
   * exactly the layout of the record it returns.
   */
  method DecodePollModel(d: Decoder) returns (r: Result<PollModel>)
    requires d.Valid()
    modifies d`pos
    ensures d.Valid()
    ensures old(d.pos) < |d.input| && d.input[old(d.pos)].Len? && d.input[old(d.pos)].n != PollModelFields
            ==> r == Err(Decode(LengthMismatch(d.input[old(d.pos)].n)))
    ensures r.Ok? <==> PollShaped(d.input[old(d.pos)..])
    ensures r.Ok? ==> d.pos == old(d.pos) + |PollLayout(r.value)|
                      && d.input[old(d.pos)..d.pos] == PollLayout(r.value)
  {
    ghost var start := d.pos;
    ghost var s := d.input[start..];
    var l := d.DecodeArrayLen();
    if l.Err? {
      return Err(l.error);
    }
    if l.value != PollModelFields {
      return Err(Decode(LengthMismatch(l.value)));
    }
    var id := d.DecodeString();
    if id.Err? {
      return Err(id.error);
    }
    var question := d.DecodeString();
    if question.Err? {
      return Err(question.error);
    }
    var n := d.DecodeArrayLen();
    if n.Err? {
      return Err(n.error);
    }
    if n.value < 0 {
      return Err(Panic("makeslice: len out of range"));
    }
    var options := DecodeOptions(d, n.value);
    if options.Err? {
      return Err(options.error);
    }
    var isActive := d.DecodeBool();
    if isActive.Err? {
      return Err(isActive.error);
    }
    var author := d.DecodeString();
    if author.Err? {
      return Err(author.error);
    }
    var m := PollModel(id.value, question.value, options.value, isActive.value, author.value);
    r := Ok(m);
    ghost var read := d.input[start..d.pos];
    assert read[4..4 + n.value] == d.input[start + 4..start + 4 + n.value];
    assert Lays(m, read);
    LaysIffPrefix(m, read);
    assert PollShaped(s) by {
      forall j | 4 <= j < 4 + n.value ensures s[j].Opt? {
        assert s[j] == read[4..4 + n.value][j - 4];
      }
    }
  }

  /** `AnswerModel.EncodeMsgpack`: four fields, in the order of `AnswerLayout`. */
  method EncodeAnswerModel(m: AnswerModel, e: Encoder)
    modifies e
    ensures e.out == old(e.out) + AnswerLayout(m)
  {
    e.EncodeArrayLen(AnswerModelFields);
    e.EncodeString(m.id);
    e.EncodeString(m.userId);
    e.EncodeString(m.pollId);
    e.EncodeInt(m.vote);
  }

  /**
   * `AnswerModel.DecodeMsgpack`: reads the fields back in the same order and
   * refuses a header other than four fields.
   */
  method DecodeAnswerModel(d: Decoder) returns (r: Result<AnswerModel>)
    requires d.Valid()
    modifies d`pos
    ensures d.Valid()
    ensures old(d.pos) < |d.input| && d.input[old(d.pos)].Len? && d.input[old(d.pos)].n != AnswerModelFields
            ==> r == Err(Decode(LengthMismatch(d.input[old(d.pos)].n)))
    ensures r.Ok? ==> d.pos == old(d.pos) + |AnswerLayout(r.value)|
                      && d.input[old(d.pos)..d.pos] == AnswerLayout(r.value)
    ensures forall m :: AnswerLayout(m) <= d.input[old(d.pos)..] ==> r == Ok(m)
  {
    var l := d.DecodeArrayLen();
    if l.Err? {
      return Err(l.error);
    }
    if l.value != AnswerModelFields {
      return Err(Decode(LengthMismatch(l.value)));
    }
    var id := d.DecodeString();
    if id.Err? {
      return Err(id.error);
    }
    var userId := d.DecodeString();
    if userId.Err? {
      return Err(userId.error);
    }
    var pollId := d.DecodeString();
    if pollId.Err? {
      return Err(pollId.error);
    }
    var vote := d.DecodeInt();
    if vote.Err? {
      return Err(vote.error);
    }
    r := Ok(AnswerModel(id.value, userId.value, pollId.value, vote.value));
  }

  /** A stored poll written and read back is the same poll. */
  method PollRoundTrip(m: PollModel) returns (r: Result<PollModel>)
    ensures r == Ok(m)
  {
    var e := new Encoder();
    EncodePollModel(m, e);
    var d := new Decoder(e.out);
    LayoutIsShaped(m, e.out);
    r := DecodePollModel(d);
    PollLayoutUnique(m, r.value, e.out);
  }

  /** A stored answer written and read back is the same answer. */
  method AnswerRoundTrip(m: AnswerModel) returns (r: Result<AnswerModel>)
    ensures r == Ok(m)
  {
    var e := new Encoder();
    EncodeAnswerModel(m, e);
    var d := new Decoder(e.out);
    r := DecodeAnswerModel(d);
  }

  /** A stored poll read as if it were an answer is refused for its field count. */
  method PollReadAsAnswer(m: PollModel) returns (r: Result<AnswerModel>)
    ensures r == Err(Decode(LengthMismatch(PollModelFields)))
  {
    var e := new Encoder();
    EncodePollModel(m, e);
    var d := new Decoder(e.out);
    r := DecodeAnswerModel(d);
  }
}
