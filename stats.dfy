/**
 * The fixed catalog of statistics a sampler can record (the STATS table of
 * mcmc/metropolis.py). Each entry names a chain-state field and the width of
 * one recorded row: 1 for a scalar, n_vars for a per-variable vector. The
 * source looks the field up by name at run time; here the catalog is a closed
 * enumeration and the lookup is a total function.
 */
module Stats {

  datatype Option<T> = None | Some(value: T)

  /** The four recognised stats, in catalog order. */
  datatype StatName =
    | LogLikelihood          // "loglikelihood": the current log-likelihood, width 1
    | AcceptRatio            // "accept_ratio": the global acceptance ratio, width 1
    | PropS                  // "prop_S": the proposal scales, width n_vars
    | ParameterAcceptRatio   // "parameter_accept_ratio": windowed per-variable ratios, width n_vars

  /** The catalog key under which a stat is requested. */
  function Key(s: StatName): string
  {
    match s
    case LogLikelihood => "loglikelihood"
    case AcceptRatio => "accept_ratio"
    case PropS => "prop_S"
    case ParameterAcceptRatio => "parameter_accept_ratio"
  }

  /** All keys of the catalog. */
  function Keys(): set<string>
  {
    {"loglikelihood", "accept_ratio", "prop_S", "parameter_accept_ratio"}
  }

  /**
   * Resolves a requested name against the catalog: a known key yields its
   * stat, anything else yields None (the source prints the valid keys and
   * registers nothing).
   */
  function Parse(name: string): (r: Option<StatName>)
    ensures r.Some? <==> name in Keys()
    ensures r.Some? ==> Key(r.value) == name
  {
    if name == "loglikelihood" then Some(LogLikelihood)
    else if name == "accept_ratio" then Some(AcceptRatio)
    else if name == "prop_S" then Some(PropS)
    else if name == "parameter_accept_ratio" then Some(ParameterAcceptRatio)
    else None
  }

  /** Every stat's key is recognised and resolves back to that stat. */
  lemma ParseKey(s: StatName)
    ensures Key(s) in Keys()
    ensures Parse(Key(s)) == Some(s)
  {
  }

  /** Width of one recorded row of a stat, for a problem with nVars variables. */
  function Width(s: StatName, nVars: nat): nat
  {
    match s
    case LogLikelihood => 1
    case AcceptRatio => 1
    case PropS => nVars
    case ParameterAcceptRatio => nVars
  }
}
