/**
  What a chat-completion call hands back, as far as the rule-based
  fallbacks look at it. The HTTP call itself is not modelled: the reply is a
  parameter of every operation that would make it.
 */
module LlmReply {
  import opened Wrappers

  /**
    `Missing`: no response, or a response without a `choices` key;
    `NoChoices`: an empty `choices` list; `Answer`: the first choice's
    content, `Some` of its decoded fields when `json.loads` accepts it and
    `None` when it raises `JSONDecodeError`.
   */
  datatype Reply<P> = Missing | NoChoices | Answer(parsed: Option<P>)

  /** The fallback is taken unless the reply has a choice whose content decodes. */
  predicate FallsBack<P>(r: Reply<P>)
  {
    !(r.Answer? && r.parsed.Some?)
  }
}
