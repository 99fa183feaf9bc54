/**
 * The standalone trivia endpoint: one question/answer pair for a location
 * plus a background image URL. Unlike `generateTrivia` in the flashcards
 * route, a missing or blank reply is an error answered with status 500.
 */
module TriviaRoute {
  import opened Wrappers
  import opened Text
  import opened Generation

  datatype Response =
    | Trivia(question: string, answer: string, backgroundImage: string)
    | Failure(status: nat, error: string, details: string)

  const RetrieveFailure: string := "Failed to retrieve trivia from OpenRouter response"
  const FetchFailure: string := "Failed to fetch trivia or image"

  /** The parse step: an error for missing or blank content, else the split on the first `Answer:`. */
  function ParseTriviaReply(raw: Option<string>): (r: Result<QA, string>)
    ensures r.Err? <==> raw.None? || AllWhitespace(raw.value)
    ensures r.Err? ==> r.error == RetrieveFailure
    ensures r.Ok? ==> r.value.answer != [] && r.value == ParseQA(Trim(raw.value), TriviaQuestionLabel, TriviaAnswerLabel)
  {
    match MessageContent(raw)
    case None => Err(RetrieveFailure)
    case Some(content) => Ok(ParseQA(content, TriviaQuestionLabel, TriviaAnswerLabel))
  }

  /**
   * `POST`: the parsed pair with the image URL (which may be empty), or the
   * 500 response carrying the thrown message as details.
   */
  function Post(raw: Option<string>, imageUrl: string): (resp: Response)
    ensures resp.Failure? <==> ParseTriviaReply(raw).Err?
    ensures resp.Failure? ==> resp == Failure(500, FetchFailure, RetrieveFailure)
    ensures resp.Trivia? ==>
      && QA(resp.question, resp.answer) == ParseTriviaReply(raw).value
      && resp.answer != [] && resp.backgroundImage == imageUrl
  {
    match ParseTriviaReply(raw)
    case Err(e) => Failure(500, FetchFailure, e)
    case Ok(qa) => Trivia(qa.question, qa.answer, imageUrl)
  }

  /**
   * The two trivia paths agree on every usable reply; on a missing or blank
   * one the flashcards route falls back to a card while this route fails.
   */
  lemma AgreesWithGenerateTrivia(location: string, raw: Option<string>, imageUrl: string)
    ensures MessageContent(raw).Some? ==>
      var c := GenerateTrivia(location, raw);
      Post(raw, imageUrl) == Trivia(c.question, c.answer, imageUrl)
    ensures MessageContent(raw).None? ==>
      Post(raw, imageUrl).Failure? && GenerateTrivia(location, raw).id == FallbackId
  {
  }
}
