/** What the constructor receives from the host operator and from the
    expression compiler, which is outside this model: the trial proxies with
    their dimensions, and for every coefficient function its compiled step
    list, its generated code body and its output dimension. */
module Expressions {
  import opened Wrappers

  /** Identity of a proxy coefficient function; the source compares object addresses. */
  type ProxyId = nat

  /** A trial proxy and the dimension of its evaluator (`proxy->Evaluator()->Dim()`). */
  datatype TrialProxy = TrialProxy(id: ProxyId, dim: nat)

  /** One compiled step: a `ProxyFunction` (identified by its proxy) or anything else. */
  datatype Step = ProxyStep(proxy: ProxyId) | OtherStep

  /** A coefficient function as the generator sees it: `Dimension()`,
      `Dimensions()`, the compiled `Steps()` and the `code.body` text. */
  datatype CoefficientFunction = CoefficientFunction(
    dim: nat,
    shape: seq<nat>,
    steps: seq<Step>,
    body: string)

  /** `Var(step, component, dims).code` of the expression compiler: the name
      under which compiled code holds one component of one step. */
  type VarNaming = (int, nat, seq<nat>) -> string

  function ProxyDims(proxies: seq<TrialProxy>): seq<nat> {
    seq(|proxies|, k requires 0 <= k < |proxies| => proxies[k].dim)
  }

  function OutputDims(cfs: seq<CoefficientFunction>): seq<nat> {
    seq(|cfs|, k requires 0 <= k < |cfs| => cfs[k].dim)
  }

  /** `trialproxies.Pos(proxy)`: the first position holding the proxy, or
      None for `ILLEGAL_POSITION`. */
  function Pos(proxies: seq<TrialProxy>, id: ProxyId): (r: Option<nat>)
    ensures r.Some? ==> r.value < |proxies| && proxies[r.value].id == id
    ensures r.Some? ==> forall q :: 0 <= q < r.value ==> proxies[q].id != id
    ensures r.None? <==> forall q :: 0 <= q < |proxies| ==> proxies[q].id != id
  {
    if proxies == [] then None
    else if proxies[0].id == id then Some(0)
    else
      match Pos(proxies[1..], id)
      case None => None
      case Some(p) => Some(p + 1)
  }
}
