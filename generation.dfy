/**
 * Turning the text model's reply into cards, as `generateFlashcards`,
 * `generateTrivia` and the persona switch of the flashcards route do it.
 * The reply arrives as `choices[0].message.content`, which may be missing;
 * the background image URL is an input.
 */
module Generation {
  import opened Wrappers
  import opened Text

  /** A generated card (`Flashcard`: id, question, answer, backgroundImage). */
  datatype Card = Card(id: string, question: string, answer: string, backgroundImage: string)

  /** What a question/answer split yields. */
  datatype QA = QA(question: string, answer: string)

  const AnswerNotProvided: string := "Answer not provided"
  const BlockSeparator: string := "\n\n"
  const CardQuestionLabel: string := "Question: "
  const CardAnswerLabel: string := "\nAnswer: "
  const TriviaQuestionLabel: string := "Question:"
  const TriviaAnswerLabel: string := "Answer:"
  const FallbackId: string := "temp_fallback"
  const TriviaId: string := "temp_trivia"

  /**
   * `content?.trim()` read as a condition: None when the content is missing
   * or trims to the empty string, otherwise the trimmed text.
   */
  function MessageContent(raw: Option<string>): (r: Option<string>)
    ensures r.None? <==> raw.None? || AllWhitespace(raw.value)
    ensures r.Some? ==> r.value == Trim(raw.value) && r.value != [] && IsTrimmed(r.value)
  {
    if raw.None? then None
    else
      var t := Trim(raw.value);
      if t == [] then None else Some(t)
  }

  /**
   * `const [questionPart, answerPart] = text.split(answerLabel)`, then the
   * first `questionLabel` is removed from the question part and both are
   * trimmed; a missing or blank answer becomes "Answer not provided".
   */
  function ParseQA(text: string, questionLabel: string, answerLabel: string): (qa: QA)
    requires |questionLabel| > 0 && |answerLabel| > 0
    ensures qa.answer != [] && IsTrimmed(qa.question) && IsTrimmed(qa.answer)
  {
    var parts := Split(text, answerLabel);
    var question := Trim(ReplaceFirst(parts[0], questionLabel, ""));
    var answer := if |parts| >= 2 && Trim(parts[1]) != [] then Trim(parts[1]) else AnswerNotProvided;
    assert AnswerNotProvided[0] == 'A' && AnswerNotProvided[|AnswerNotProvided| - 1] == 'd';
    QA(question, answer)
  }

  /** The text before the first occurrence of `marker`, or all of it. */
  function Before(text: string, marker: string): string
    requires |marker| > 0
  {
    match IndexOf(text, marker)
    case None => text
    case Some(i) => text[..i]
  }

  /** The text after the first occurrence of `marker`, if there is one. */
  function After(text: string, marker: string): Option<string>
    requires |marker| > 0
  {
    match IndexOf(text, marker)
    case None => None
    case Some(i) => Some(text[i + |marker|..])
  }

  /**
   * The question is the text before the first answer label with the first
   * question label removed, trimmed. The answer is the trimmed text between
   * the first and the second answer label (or to the end), unless there is
   * no answer label or that text is blank.
   */
  lemma ParseQAMeaning(text: string, questionLabel: string, answerLabel: string)
    requires |questionLabel| > 0 && |answerLabel| > 0
    ensures ParseQA(text, questionLabel, answerLabel).question
      == Trim(ReplaceFirst(Before(text, answerLabel), questionLabel, ""))
    ensures After(text, answerLabel).None? ==> ParseQA(text, questionLabel, answerLabel).answer == AnswerNotProvided
    ensures After(text, answerLabel).Some? ==>
      var between := Trim(Before(After(text, answerLabel).value, answerLabel));
      ParseQA(text, questionLabel, answerLabel).answer == (if between != [] then between else AnswerNotProvided)
  {
    SplitFirstPieces(text, answerLabel);
    if After(text, answerLabel).Some? {
      SplitFirstPieces(After(text, answerLabel).value, answerLabel);
    }
  }

  /** What surrounds the first occurrence of a separator that follows a clean piece. */
  lemma AroundCleanPiece(p: string, q: string, marker: string)
    requires |marker| > 0 && EndsCleanly(p, marker)
    ensures Before(p + marker + q, marker) == p
    ensures After(p + marker + q, marker) == Some(q)
  {
    FirstAfterCleanPiece(p, q, marker);
    var s := p + marker + q;
    assert s[..|p|] == p;
    assert s[|p| + |marker|..] == q;
  }

  /** Whatever follows a second answer label is discarded. */
  lemma ParseQADiscardsTail(a: string, b: string, c: string, questionLabel: string, answerLabel: string)
    requires |questionLabel| > 0 && |answerLabel| > 0
    requires EndsCleanly(a, answerLabel) && EndsCleanly(b, answerLabel) && !Contains(b, answerLabel)
    ensures ParseQA(a + answerLabel + b + answerLabel + c, questionLabel, answerLabel)
         == ParseQA(a + answerLabel + b, questionLabel, answerLabel)
  {
    var t1 := a + answerLabel + (b + answerLabel + c);
    var t2 := a + answerLabel + b;
    assert t1 == a + answerLabel + b + answerLabel + c;
    AroundCleanPiece(a, b + answerLabel + c, answerLabel);
    AroundCleanPiece(a, b, answerLabel);
    AroundCleanPiece(b, c, answerLabel);
    assert Before(b, answerLabel) == b;
    ParseQAMeaning(t1, questionLabel, answerLabel);
    ParseQAMeaning(t2, questionLabel, answerLabel);
  }

  /** One `\n\n`-separated block becomes card number `index`. */
  function CardFromBlock(block: string, index: nat): Card {
    var qa := ParseQA(block, CardQuestionLabel, CardAnswerLabel);
    Card("temp_" + NatToString(index), qa.question, qa.answer, "")
  }

  /** The card shown when the reply has no usable content: it asks about the subject and apologises. */
  function FlashcardFallback(subject: string): (c: Card)
    ensures c.id == FallbackId && c.answer != [] && c.backgroundImage == ""
    ensures |c.question| > |subject| && c.question[|c.question| - |subject| - 1..] == subject + "?"
  {
    Card(FallbackId,
         "What is an interesting fact about " + subject + "?",
         "I'm sorry, but I couldn't generate specific flashcards about " + subject + " at this time. Please try again later.",
         "")
  }

  /**
   * The card list `generateFlashcards` returns for the reply `raw`: one
   * fallback card when the content is missing or blank, else one card per
   * block of the trimmed content.
   */
  function GenerateFlashcards(subject: string, raw: Option<string>): (cards: seq<Card>)
    ensures MessageContent(raw).None? ==> cards == [FlashcardFallback(subject)]
    ensures MessageContent(raw).Some? ==>
      && |cards| == |Split(MessageContent(raw).value, BlockSeparator)|
      && forall i :: 0 <= i < |cards| ==> cards[i].id == "temp_" + NatToString(i)
    ensures forall i :: 0 <= i < |cards| ==> cards[i].answer != [] && cards[i].backgroundImage == ""
  {
    match MessageContent(raw)
    case None => [FlashcardFallback(subject)]
    case Some(content) =>
      var blocks := Split(content, BlockSeparator);
      seq(|blocks|, i requires 0 <= i < |blocks| => CardFromBlock(blocks[i], i))
  }

  /** Different block numbers give different ids. */
  lemma TempIdsDistinct(i: nat, j: nat)
    requires i != j
    ensures "temp_" + NatToString(i) != "temp_" + NatToString(j)
  {
    NatToStringInjective(i, j);
    var p := "temp_";
    assert (p + NatToString(i))[|p|..] == NatToString(i);
    assert (p + NatToString(j))[|p|..] == NatToString(j);
  }

  /** A block id is never the fallback id: its sixth character is a digit. */
  lemma TempIdNotFallback(i: nat)
    ensures "temp_" + NatToString(i) != FallbackId
  {
    var d := NatToString(i);
    assert ("temp_" + d)[5] == d[0] && IsDigit(d[0]);
    assert FallbackId[5] == 'f';
  }

  /**
   * Card i of a parsed reply is block i of the trimmed content, read as a
   * question and an answer; the ids are pairwise distinct and none of them
   * is the fallback id.
   */
  lemma GenerateFlashcardsBlocks(subject: string, raw: Option<string>)
    requires MessageContent(raw).Some?
    ensures var cards := GenerateFlashcards(subject, raw);
      var blocks := Split(MessageContent(raw).value, BlockSeparator);
      && (forall i :: 0 <= i < |cards| ==>
           QA(cards[i].question, cards[i].answer) == ParseQA(blocks[i], CardQuestionLabel, CardAnswerLabel))
      && (forall i, j :: 0 <= i < j < |cards| ==> cards[i].id != cards[j].id)
      && (forall i :: 0 <= i < |cards| ==> cards[i].id != FallbackId)
  {
    var cards := GenerateFlashcards(subject, raw);
    forall i, j | 0 <= i < j < |cards| ensures cards[i].id != cards[j].id {
      TempIdsDistinct(i, j);
    }
    forall i | 0 <= i < |cards| ensures cards[i].id != FallbackId {
      TempIdNotFallback(i);
    }
  }

  /** The block `Question: q\nAnswer: a`. */
  function Block(q: string, a: string): string {
    CardQuestionLabel + q + CardAnswerLabel + a
  }

  /** The blocks of a reply built from questions and answers. */
  function Blocks(qs: seq<string>, as_: seq<string>): (bs: seq<string>)
    requires |qs| == |as_|
    ensures |bs| == |qs| && forall i :: 0 <= i < |qs| ==> bs[i] == Block(qs[i], as_[i])
  {
    seq(|qs|, i requires 0 <= i < |qs| => Block(qs[i], as_[i]))
  }

  /** The block's own parts split back apart: no stray answer label in them. */
  predicate WellFormedPair(q: string, a: string) {
    EndsCleanly(CardQuestionLabel + q, CardAnswerLabel) && !Contains(a, CardAnswerLabel)
  }

  /** The answer a card shows for the answer text `a`. */
  function ShownAnswer(a: string): string {
    if Trim(a) != [] then Trim(a) else AnswerNotProvided
  }

  /** A well-formed block reads back as its trimmed question and answer. */
  lemma BlockParses(q: string, a: string)
    requires WellFormedPair(q, a)
    ensures ParseQA(Block(q, a), CardQuestionLabel, CardAnswerLabel) == QA(Trim(q), ShownAnswer(a))
  {
    var head := CardQuestionLabel + q;
    assert Block(q, a) == Join([head, a], CardAnswerLabel);
    SplitJoin([head, a], CardAnswerLabel);
    ReplaceLeading(CardQuestionLabel, q);
  }

  /**
   * A reply made of well-formed `Question: q\nAnswer: a` blocks separated by
   * blank lines yields one card per block, in order, each with the trimmed
   * question and answer (the placeholder answer only for a blank one).
   */
  lemma WellFormedReply(subject: string, qs: seq<string>, as_: seq<string>)
    requires |qs| == |as_| >= 1
    requires forall i :: 0 <= i < |qs| ==> WellFormedPair(qs[i], as_[i])
    requires Separable(Blocks(qs, as_), BlockSeparator)
    requires IsTrimmed(Join(Blocks(qs, as_), BlockSeparator))
    ensures var cards := GenerateFlashcards(subject, Some(Join(Blocks(qs, as_), BlockSeparator)));
      && |cards| == |qs|
      && forall i :: 0 <= i < |qs| ==> cards[i].question == Trim(qs[i]) && cards[i].answer == ShownAnswer(as_[i])
  {
    var blocks := Blocks(qs, as_);
    var text := Join(blocks, BlockSeparator);
    assert text != [] by { JoinHeadPrefix(blocks, BlockSeparator); }
    TrimIdempotent(text);
    assert MessageContent(Some(text)) == Some(text);
    SplitJoin(blocks, BlockSeparator);
    var cards := GenerateFlashcards(subject, Some(text));
    forall i | 0 <= i < |qs|
      ensures cards[i].question == Trim(qs[i]) && cards[i].answer == ShownAnswer(as_[i])
    {
      assert cards[i] == CardFromBlock(blocks[i], i);
      BlockParses(qs[i], as_[i]);
    }
  }

  /** The first block is a prefix of the join, so a join of non-empty blocks is non-empty. */
  lemma {:induction false} JoinHeadPrefix(parts: seq<string>, sep: string)
    requires |parts| >= 1
    ensures parts[0] <= Join(parts, sep)
  {
  }

  /** The trivia card used when the reply has no usable content: it asks about the location. */
  function TriviaFallback(location: string): (c: Card)
    ensures c.id == FallbackId && c.answer != [] && c.backgroundImage == ""
    ensures |c.question| > |location| && c.question[|c.question| - |location| - 1..] == location + "?"
  {
    Card(FallbackId,
         "What is an interesting fact about " + location + "?",
         "I'm sorry, but I couldn't generate a specific trivia question about " + location + " at this time. Please try again later.",
         "")
  }

  /**
   * The card `generateTrivia` returns: the fallback card for a missing or
   * blank reply, else `temp_trivia` with the question and answer split on
   * the first `Answer:`; its answer is never empty.
   */
  function GenerateTrivia(location: string, raw: Option<string>): (c: Card)
    ensures MessageContent(raw).None? ==> c == TriviaFallback(location)
    ensures MessageContent(raw).Some? ==>
      c.id == TriviaId && QA(c.question, c.answer) == ParseQA(MessageContent(raw).value, TriviaQuestionLabel, TriviaAnswerLabel)
    ensures c.answer != [] && c.backgroundImage == ""
  {
    match MessageContent(raw)
    case None => TriviaFallback(location)
    case Some(content) =>
      var qa := ParseQA(content, TriviaQuestionLabel, TriviaAnswerLabel);
      Card(TriviaId, qa.question, qa.answer, "")
  }

  /** The replies and image the route's two upstream services produced. */
  datatype Upstream = Upstream(flashcardReply: Option<string>, triviaReply: Option<string>, image: string)

  /**
   * The cards the route generates for `userType`: one trivia card for a
   * traveler, the parsed flashcards for a student, none for anything else;
   * every card carries the one fetched background image.
   */
  function GenerateCards(userType: string, subject: string, location: string, up: Upstream): (cards: seq<Card>)
    ensures userType == "traveler" ==> cards == [GenerateTrivia(location, up.triviaReply).(backgroundImage := up.image)]
    ensures userType == "student" ==>
      var parsed := GenerateFlashcards(subject, up.flashcardReply);
      |cards| == |parsed| && forall i :: 0 <= i < |cards| ==> cards[i] == parsed[i].(backgroundImage := up.image)
    ensures userType != "traveler" && userType != "student" ==> cards == []
    ensures forall i :: 0 <= i < |cards| ==> cards[i].backgroundImage == up.image && cards[i].answer != []
  {
    if userType == "traveler" then
      [GenerateTrivia(location, up.triviaReply).(backgroundImage := up.image)]
    else if userType == "student" then
      var parsed := GenerateFlashcards(subject, up.flashcardReply);
      seq(|parsed|, i requires 0 <= i < |parsed| => parsed[i].(backgroundImage := up.image))
    else []
  }
}
