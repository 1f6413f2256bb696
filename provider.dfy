/**
 * The completion and image services (Gemini, OpenRouter, Flux) are reached
 * over HTTP; the model sees only which helper the router invokes, with what
 * argument, and how that invocation ended.
 */
module Provider {

  /** How one provider helper ended: its API key is unset, the request threw, or it answered with `content`
      (the empty string standing for a missing or empty field in the response). */
  datatype Outcome = MissingKey | Failed | Ok(content: string)

  /** Which provider helper the router invokes. */
  datatype Mode = Summary | Reply | ImageGeneration

  /** One invocation of a provider helper with its argument. */
  datatype Call = Call(mode: Mode, arg: string)
}
