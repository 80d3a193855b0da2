/**
 * SPARQL result rows as the triplestore returns them, and the store itself as an
 * abstract function from a query request to its response.
 */
module Sparql {
  import opened Wrappers

  /** The `type` member of a term in the SPARQL JSON results format. */
  datatype Kind = Uri | Literal | BNode

  /** One bound term: `{type, value}`. */
  datatype Term = Term(kind: Kind, value: string)

  /** One result row: variable name to bound term; unbound variables are absent. */
  type Binding = map<string, Term>

  /**
   * The decoded response: None when it has no `results` member, otherwise
   * the rows of `results.bindings`.
   */
  type Response = Option<seq<Binding>>

  /** The form fields sent to the store: query text, inference and sameAs switches, limit, offset. */
  datatype Query = Query(text: string, infer: bool, sameAs: bool, limit: int, offset: int)

  /** The triplestore: one request, one response. The HTTP transport is not modelled. */
  type Store = Query -> Response

  /** A request with the endpoint's defaults for inference and sameAs expansion (both on). */
  function Request(text: string, limit: int, offset: int): Query
  {
    Query(text, true, true, limit, offset)
  }

  /** Failures raised while reading rows: a missing variable (KeyError) or a string indexed as a dict (TypeError). */
  datatype Error = Unbound(variable: string) | NotAMapping(key: string)

  /** The value string of variable `v`, or "" when `v` is unbound. */
  function Val(b: Binding, v: string): string
  {
    if v in b then b[v].value else ""
  }

  /** Variable `v` is bound to a blank node. */
  predicate IsBlank(b: Binding, v: string)
  {
    v in b && b[v].kind == BNode
  }
}
