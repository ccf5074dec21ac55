/**
  The language model as the pipeline sees it: a prompt goes in, and either a
  reply whose `content` the caller reads comes back, or the call raises an
  exception whose text `str(e)` the caller may keep. The model is an oracle:
  one run gives the same reply to the same prompt.
*/
module Llm {

  datatype Reply = Answer(content: string) | Raised(message: string)

  /** `llm.invoke(prompt)`. */
  type Invoke = string -> Reply

  /** A value, or the text of an exception that propagates to the caller. */
  datatype Result<T> = Ok(value: T) | Err(message: string)
}
