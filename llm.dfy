/**
 * The two external services the ranker and the summarizer talk to, as
 * values: the language model's reply (or the exception its client raised)
 * and `json.loads`, a partial function from text to a JSON value.
 */
module Llm {
  import opened Wrappers

  /** The result of one `generate` / `chat.completions.create` call. */
  datatype LlmOutcome = Reply(text: string) | CallFailed(message: string)

  /**
   * A decoded JSON value, as far as the scorer looks at it: numbers,
   * booleans, strings and objects. Arrays and null are `JOther`.
   */
  datatype JsonValue = JNumber(n: real) | JBool(b: bool) | JString(s: string) | JObject(fields: map<string, JsonValue>) | JOther

  /** `json.loads`: a value, or the message of the `JSONDecodeError` it raised. */
  type Decoder = string -> Result<JsonValue>
}
