/** The prompt builder of chatapi.py: the question is placed verbatim into
    the one slot of a fixed instruction template. */
module Prompt {
  import opened PyStr

  /** `PROBLEM_CONTEXT`: a triple-quoted literal, so it starts and ends with a newline. */
  const ProblemContext: string :=
    "\n"
    + "India faces challenges in forecasting electricity demand due to varied climates, "
    + "regional usage patterns, and variable solar generation.\n"
    + "PowerCast is an AI-powered platform that helps forecast demand using historical "
    + "load data, weather forecasts, and regional behavior.\n"
    + "It helps power distributors plan energy usage, avoid blackouts, reduce wastage, "
    + "and integrate renewables using an interactive dashboard.\n"

  /** The sentence the model is told to answer with when a question is off-topic. */
  const Refusal: string :=
    "Sorry, "
    + "I can only assist with queries related to the PowerCast "
    + "electricity forecasting platform."

  /** The refusal sentence has no whitespace at its ends, so stripping a reply
      that is exactly this sentence gives it back. */
  lemma RefusalHasNoEdgeSpace()
    ensures NoEdgeSpace(Refusal)
  {
  }

  /** The template up to the context slot. */
  const Opening: string :=
    "\n"
    + "You are a helpful assistant for the PowerCast platform.\n"
    + "\n"
    + "Context:\n"

  /** The template between the context and the question slot. */
  const Instructions: string :=
    "\n"
    + "\n"
    + "Answer ONLY if the question relates to:\n"
    + "-Greetings\n"
    + "- Electricity forecasting\n"
    + "- Power grid planning in India\n"
    + "- PowerCast features\n"
    + "- Renewable energy integration\n"
    + "- Data analytics (load, weather, consumption)\n"
    + "- AI/ML techniques used in PowerCast\n"
    + "To address this, the PowerCast platform uses AI to analyze:\n"
    + "    Historical electricity load data\n"
    + "    Real-time and forecasted weather conditions\n"
    + "    Regional usage behavior\n"
    + "    The goal is to help power distributors:\n"
    + "    Predict electricity demand more accurately\n"
    + "    Prevent shortages, blackouts, and energy waste\n"
    + "    Optimize integration of renewable energy sources like solar\n"
    + "PowerCast includes a web dashboard for:\n"
    + "    Visualizing region-specific trends\n"
    + "    Displaying real-time and forecasted data\n"
    + "    Enabling data-driven operational decisions\n"
    + "    Electricity forecasting\n"
    + "    Indian power grid challenges\n"
    + "    AI models for demand prediction\n"
    + "    PowerCast platform functionality\n"
    + "    Renewable energy integration\n"
    + "    Regional energy planning\n"
    + "\n"
    + "User's Question:\n"

  /** The template after the question slot, up to the quoted refusal sentence. */
  const Closing: string :=
    "\n"
    + "\n"
    + "If the question is irrelevant (e.g., about movies, random trivia, or politics), "
    + "respond with:\n"
    + "\""

  /** Everything the template puts before the question. */
  const Prefix: string := Opening + ProblemContext + Instructions

  /** Everything the template puts after the question. */
  const Suffix: string := Closing + Refusal + "\"\n"

  /** `build_prompt(user_question)`: the f-string with its single slot filled. */
  function BuildPrompt(question: string): string {
    Prefix + question + Suffix
  }

  /** `p` is `pre`, then `q`, then `suf`: its length is their sum, and the
      three parts can be sliced back out of it. */
  predicate Slotted(p: string, pre: string, q: string, suf: string) {
    && |p| == |pre| + |q| + |suf|
    && p[..|pre|] == pre
    && p[|pre| + |q|..] == suf
    && OccursAt(q, p, |pre|)
  }

  /** Any concatenation of three parts is laid out as `Slotted` describes. */
  lemma SlotLayout(pre: string, q: string, suf: string)
    ensures Slotted(pre + q + suf, pre, q, suf)
  {
    var p := pre + q + suf;
    assert p[..|pre|] == pre;
    assert p[|pre|..|pre| + |q|] == q;
  }

  /** Concatenation regrouped, so that a middle part can be singled out. */
  lemma Regroup(a: string, b: string, c: string, d: string, e: string)
    ensures a + b + c + d + e == a + b + (c + d + e)
  {
  }

  /** The prompt is the fixed prefix, then the question, then the fixed suffix. */
  lemma PromptLayout(q: string)
    ensures Slotted(BuildPrompt(q), Prefix, q, Suffix)
  {
    SlotLayout(Prefix, q, Suffix);
  }

  /** The question is a substring of its prompt. */
  lemma QuestionInPrompt(q: string)
    ensures Contains(BuildPrompt(q), q)
  {
    PromptLayout(q);
    ContainsAt(BuildPrompt(q), q, |Prefix|);
  }

  /** The prompt embeds the problem context verbatim, right after the opening lines. */
  lemma ContextInPrompt(q: string)
    ensures OccursAt(ProblemContext, BuildPrompt(q), |Opening|)
    ensures Contains(BuildPrompt(q), ProblemContext)
  {
    var rest := Instructions + q + Suffix;
    Regroup(Opening, ProblemContext, Instructions, q, Suffix);
    SlotLayout(Opening, ProblemContext, rest);
    ContainsAt(BuildPrompt(q), ProblemContext, |Opening|);
  }

  /** The prompt ends with the refusal sentence in quotes, verbatim. */
  lemma RefusalInPrompt(q: string)
    ensures OccursAt(Refusal, BuildPrompt(q), |Prefix| + |q| + |Closing|)
    ensures Contains(BuildPrompt(q), Refusal)
  {
    var before := Prefix + q + Closing;
    Regroup(Prefix, q, Closing, Refusal, "\"\n");
    SlotLayout(before, Refusal, "\"\n");
    ContainsAt(BuildPrompt(q), Refusal, |before|);
  }

  /** `p` holds the question `q`, the problem context and the refusal sentence. */
  predicate Carries(p: string, q: string) {
    Contains(p, q) && Contains(p, ProblemContext) && Contains(p, Refusal)
  }

  /** Every prompt carries its question, the problem context and the refusal sentence. */
  lemma PromptCarries(q: string)
    ensures Carries(BuildPrompt(q), q)
  {
    QuestionInPrompt(q);
    ContextInPrompt(q);
    RefusalInPrompt(q);
  }

  /** Different questions give different prompts: the question can be read
      back from its slot. */
  lemma BuildPromptInjective(q1: string, q2: string)
    requires BuildPrompt(q1) == BuildPrompt(q2)
    ensures q1 == q2
  {
    PromptLayout(q1);
    PromptLayout(q2);
    var p := BuildPrompt(q1);
    assert q1 == p[|Prefix|..|Prefix| + |q1|];
  }
}
