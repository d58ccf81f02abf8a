/** Query-string parameters as the Django views read them with
    `request.query_params.get(name, None)`: absent, or a string. */
module QueryParams {
  import opened Wrappers

  /** `if param:` takes effect only when the parameter is present and
      non-empty (Python truthiness). */
  predicate Given(p: Option<string>)
  {
    p.Some? && p.value != ""
  }

  /** The parameter's text, empty when absent. */
  function Param(p: Option<string>): string
  {
    if p.Some? then p.value else ""
  }
}
