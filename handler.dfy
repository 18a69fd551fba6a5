/** The `/ask` route of chatapi.py and the model call behind it. The language
    model is a parameter `gen`; every exchange records the prompts it sent to
    `gen`, in order, so that "the model was (not) called" can be stated. */
module Handler {
  import opened PyStr
  import opened Prompt
  import opened Relevance

  datatype Option<T> = None | Some(value: T)

  /** The JSON reply: `{"error": message}` with a status code, or `{"answer": text}`. */
  datatype Response = Error(code: nat, message: string) | Answer(text: string)

  /** A handled request: the response and the prompts passed to the model. */
  datatype Exchange = Exchange(response: Response, modelCalls: seq<string>)

  /** The model's stripped reply together with the prompts passed to the model. */
  datatype BotReply = BotReply(text: string, modelCalls: seq<string>)

  const NoQuestion: string := "No question provided."

  /** The HTTP status of a response; an answer is sent with the default 200. */
  function Status(r: Response): nat {
    match r
    case Error(code, _) => code
    case Answer(_) => 200
  }

  /** `ask_powercast_bot(user_question)`: one model call on the built prompt,
      whose text comes back with surrounding whitespace stripped. */
  function AskPowercastBot(question: string, gen: string -> string): (b: BotReply)
    ensures b.modelCalls == [BuildPrompt(question)]
    ensures IsStripOf(b.text, gen(BuildPrompt(question)))
  {
    var reply := gen(BuildPrompt(question));
    StripSpec(reply);
    BotReply(Strip(reply), [BuildPrompt(question)])
  }

  /** `data.get("question", "")`. */
  function QuestionField(question: Option<string>): string {
    match question
    case None => ""
    case Some(q) => q
  }

  /** `ask()`: reject a missing or blank question with 400, otherwise answer
      through the model with the stripped question. */
  function Ask(question: Option<string>, gen: string -> string): (x: Exchange)
    ensures x.response.Error? <==> AllSpace(QuestionField(question))
    ensures x.response.Error? ==> x.response == Error(400, NoQuestion) && x.modelCalls == []
    ensures x.response.Answer? ==>
      && Strip(QuestionField(question)) != ""
      && x.modelCalls == [BuildPrompt(Strip(QuestionField(question)))]
      && IsStripOf(x.response.text, gen(x.modelCalls[0]))
    ensures Status(x.response) == if AllSpace(QuestionField(question)) then 400 else 200
  {
    var q := Strip(QuestionField(question));
    StripEmptyIff(QuestionField(question));
    if q == "" then
      Exchange(Error(400, NoQuestion), [])
    else
      var reply := AskPowercastBot(q, gen);
      Exchange(Answer(reply.text), reply.modelCalls)
  }

  /** The model is called at most once, and exactly when the request is answered. */
  lemma AskCallsModelOnlyToAnswer(question: Option<string>, gen: string -> string)
    ensures |Ask(question, gen).modelCalls| == if Ask(question, gen).response.Answer? then 1 else 0
  {
  }

  /** An answered request sent the model a prompt that holds the stripped
      question in its slot, the problem context and the refusal sentence, and
      the answer is the model's own text with only whitespace stripped. */
  lemma AnsweredPromptContents(q: string, gen: string -> string)
    requires !AllSpace(q)
    ensures Ask(Some(q), gen).modelCalls == [BuildPrompt(Strip(q))]
    ensures Ask(Some(q), gen).response == Answer(Strip(gen(BuildPrompt(Strip(q)))))
    ensures Carries(Ask(Some(q), gen).modelCalls[0], Strip(q))
  {
    var x := Ask(Some(q), gen);
    StripUnique(gen(x.modelCalls[0]), x.response.text);
    PromptCarries(Strip(q));
  }

  /** The answer depends on the question only through its stripped form. */
  lemma AskDependsOnStrippedQuestion(q1: string, q2: string, gen: string -> string)
    requires Strip(q1) == Strip(q2)
    ensures Ask(Some(q1), gen) == Ask(Some(q2), gen)
  {
    StripEmptyIff(q1);
    StripEmptyIff(q2);
  }

  /** A question with no whitespace at its ends goes to the model unchanged. */
  lemma AskTrimmedQuestion(q: string, gen: string -> string)
    requires q != "" && NoEdgeSpace(q)
    ensures Ask(Some(q), gen) == Exchange(Answer(Strip(gen(BuildPrompt(q)))), [BuildPrompt(q)])
  {
    StripNoEdgeSpace(q);
  }

  /** The relevance check is not consulted: every question that is not blank
      is answered through the model, whatever `is_relevant` says of it. */
  lemma AskIgnoresRelevance(q: string, gen: string -> string)
    requires !AllSpace(q)
    ensures Ask(Some(q), gen).response.Answer?
    ensures Ask(Some(q), gen).modelCalls == [BuildPrompt(Strip(q))]
  {
  }

  /** A question that `is_relevant` rejects still goes to the model. */
  lemma IrrelevantQuestionReachesModel(gen: string -> string)
    ensures !IsRelevant("Quiz on TV?")
    ensures Ask(Some("Quiz on TV?"), gen).modelCalls == [BuildPrompt("Quiz on TV?")]
  {
    var q := "Quiz on TV?";
    AskTrimmedQuestion(q, gen);
    QuizQuestionNotRelevant();
  }

  /** A question that `is_relevant` accepts goes to the model the same way. */
  lemma RelevantQuestionReachesModel(gen: string -> string)
    ensures IsRelevant("Tell me about this movie")
    ensures Ask(Some("Tell me about this movie"), gen).modelCalls
         == [BuildPrompt("Tell me about this movie")]
  {
    var q := "Tell me about this movie";
    AskTrimmedQuestion(q, gen);
    HiInsideWord();
  }

  // ---------------------------------------------------------------------
  // Request scenarios, with the model replaced by a fixed reply.

  /** A question is answered with the mock's fixed reply, trimmed. */
  lemma ScenarioAnswered(reply: string)
    requires NoEdgeSpace(reply)
    ensures Ask(Some("What is PowerCast?"), (p: string) => " " + reply + "\n")
         == Exchange(Answer(reply), [BuildPrompt("What is PowerCast?")])
  {
    var q := "What is PowerCast?";
    AskTrimmedQuestion(q, (p: string) => " " + reply + "\n");
    StripPadded(" ", reply, "\n");
  }

  /** An empty question is rejected without calling the model. */
  lemma ScenarioEmptyQuestion(gen: string -> string)
    ensures Ask(Some(""), gen) == Exchange(Error(400, NoQuestion), [])
  {
  }

  /** A body without a `question` field is rejected without calling the model. */
  lemma ScenarioMissingQuestion(gen: string -> string)
    ensures Ask(None, gen) == Exchange(Error(400, NoQuestion), [])
  {
  }

  /** A whitespace-only question is rejected without calling the model. */
  lemma ScenarioBlankQuestion(gen: string -> string)
    ensures Ask(Some(" \t\n"), gen) == Exchange(Error(400, NoQuestion), [])
  {
    var q := " \t\n";
    assert IsSpace(q[0]) && IsSpace(q[1]) && IsSpace(q[2]);
    assert AllSpace(q);
  }

  /** An off-topic question gets the model's refusal back unchanged. */
  lemma ScenarioOffTopic()
    ensures Ask(Some("Tell me about movies"), (p: string) => Refusal).response == Answer(Refusal)
  {
    var q := "Tell me about movies";
    AskTrimmedQuestion(q, (p: string) => Refusal);
    RefusalHasNoEdgeSpace();
    StripNoEdgeSpace(Refusal);
  }
}
