/** The CUDA source text that the constructor of DevApplyIntegrationPoints
    writes into its `stringstream`: a `__global__` kernel holding one block
    per coefficient function, followed by the `extern "C"` entry function.
    The text is first defined by functions, then produced by a method with
    the source's loops and proved equal to that definition. */
module KernelSource {
  import opened Wrappers
  import opened Decimal
  import opened RunningTotals
  import opened Expressions

  /** An input accessor: `values_<step>` reads the proxy whose first input
      component is `offset`. */
  datatype Binding = Binding(step: nat, offset: nat)

  /** One output store: output component `component` receives component
      `comp` of compiled step `step`. */
  datatype Store = Store(component: nat, step: int, comp: nat, shape: seq<nat>)

  /** Fragments written one after another, as by a chain of `<<`. */
  function Concat(fragments: seq<string>): string {
    if fragments == [] then ""
    else Concat(fragments[..|fragments| - 1]) + fragments[|fragments| - 1]
  }

  // Fixed text is given as short fragments split at token boundaries and
  // next to every brace; the characters are exactly those the source writes.

  const KernelHeader: string := KernelIncludes + KernelSignature

  const KernelIncludes: string := Concat([
    "#include <bla.hpp>\n",
    "#include <cuda_linalg.hpp>\n",
    "#include <cstddef>\n",
    "using namespace ngbla;\n"])

  const KernelSignature: string := Concat([
    "__global__ void ",
    "ApplyIPFunctionKernel ",
    "(size_t nip, ",
    "double * input, ",
    "size_t dist_input,\n",
    "                      ",
    "double * output, ",
    "size_t dist_output) ",
    "{\n"])

  /** Start of one coefficient function's block. */
  const BlockOpen: string := "{\n"

  /** Grid-stride loop over the integration points. */
  const LoopHeader: string := Concat([
    "int tid = ",
    "blockIdx.x*blockDim.x",
    "+threadIdx.x;\n",
    "for (int i = tid; ",
    "i < nip; ",
    "i += blockDim.x*gridDim.x) ",
    "{\n"])

  /** Closes the loop and the block. */
  const BlockClose: string := "}\n}"

  /** Closes the kernel function. */
  const KernelClose: string := "}\n"

  /** The symbol the loader resolves. */
  const EntryName: string := "ApplyIPFunction"

  /** The `extern "C"` entry: launches the kernel on 256 blocks of 256 threads. */
  const EntryFunction: string := EntrySignature + EntryLaunch

  const EntrySignature: string := Concat([
    "extern \"C\" void ",
    EntryName,
    " (size_t nip, ",
    "BareVector<Dev<double>> ",
    "input, ",
    "size_t dist_input,\n",
    "                      ",
    "BareVector<Dev<double>> ",
    "output, ",
    "size_t dist_output) ",
    "{\n"])

  const EntryLaunch: string := Concat([
    "  ApplyIPFunctionKernel",
    "<<<256,256>>> ",
    "(nip, ",
    "(double*)input.Data(), ",
    "dist_input, ",
    "(double*)output.Data(), ",
    "dist_output); ",
    "} \n"])

  /** The binding emitted for step k, if any: only a `ProxyFunction` step
      whose proxy is among the trial proxies gets one. */
  function BindingAt(steps: seq<Step>, proxies: seq<TrialProxy>, k: nat): seq<Binding>
    requires k < |steps|
  {
    match steps[k]
    case OtherStep => []
    case ProxyStep(id) =>
      match Pos(proxies, id)
      case None => []
      case Some(p) => [Binding(k, Offsets(ProxyDims(proxies))[p])]
  }

  /** The bindings emitted for the first n steps, in step order. */
  function Bindings(steps: seq<Step>, proxies: seq<TrialProxy>, n: nat): seq<Binding>
    requires n <= |steps|
  {
    if n == 0 then [] else Bindings(steps, proxies, n - 1) + BindingAt(steps, proxies, n - 1)
  }

  /** The accessor lambda `values_<step>` and the flag `has_values_<step>`
      for one binding. */
  function AccessorText(b: Binding): string {
    Concat(LambdaFragments(b)) + Concat(FlagFragments(b))
  }

  function LambdaFragments(b: Binding): seq<string> {
    [ "auto values_", FromNat(b.step), " = [dist_input,input]", "(size_t i, int comp)\n",
      " {", " return ", "input[i + (comp+", FromNat(b.offset), ")*dist_input]; ", "};\n" ]
  }

  function FlagFragments(b: Binding): seq<string> {
    [ "bool constexpr ", "has_values_", FromNat(b.step), " = true;\n", "\n" ]
  }

  function AccessorsText(bs: seq<Binding>): string {
    if bs == [] then "" else AccessorsText(bs[..|bs| - 1]) + AccessorText(bs[|bs| - 1])
  }

  /** The stores of one coefficient function whose block starts at output
      component `base`: one per component, each reading the last step. */
  function Stores(cf: CoefficientFunction, base: nat): seq<Store> {
    seq(cf.dim, j requires 0 <= j < cf.dim => Store(base + j, |cf.steps| - 1, j, cf.shape))
  }

  function StoreText(st: Store, varCode: VarNaming): string {
    Concat(StoreFragments(st, varCode))
  }

  function StoreFragments(st: Store, varCode: VarNaming): seq<string> {
    [ "output[i+", FromNat(st.component), "*dist_output] = ", varCode(st.step, st.comp, st.shape), ";\n" ]
  }

  function StoresText(ss: seq<Store>, varCode: VarNaming): string {
    if ss == [] then "" else StoresText(ss[..|ss| - 1], varCode) + StoreText(ss[|ss| - 1], varCode)
  }

  /** The block of one coefficient function: accessors, loop header, the
      compiled body, the stores, and the closing braces. */
  function BlockText(cf: CoefficientFunction, base: nat, proxies: seq<TrialProxy>, varCode: VarNaming): string {
    BlockOpen
    + AccessorsText(Bindings(cf.steps, proxies, |cf.steps|))
    + LoopHeader
    + cf.body + "\n"
    + StoresText(Stores(cf, base), varCode)
    + BlockClose
  }

  /** All blocks; block j starts at the total output dimension of blocks 0..j-1. */
  function Blocks(cfs: seq<CoefficientFunction>, proxies: seq<TrialProxy>, varCode: VarNaming): string {
    if cfs == [] then ""
    else
      var front := cfs[..|cfs| - 1];
      Blocks(front, proxies, varCode) + BlockText(cfs[|cfs| - 1], Sum(OutputDims(front)), proxies, varCode)
  }

  /** Every store of every block, in the order they are written. */
  function AllStores(cfs: seq<CoefficientFunction>): seq<Store> {
    if cfs == [] then []
    else
      var front := cfs[..|cfs| - 1];
      AllStores(front) + Stores(cfs[|cfs| - 1], Sum(OutputDims(front)))
  }

  /** The complete generated translation unit. */
  function Source(proxies: seq<TrialProxy>, cfs: seq<CoefficientFunction>, varCode: VarNaming): string {
    KernelHeader + Blocks(cfs, proxies, varCode) + KernelClose + EntryFunction
  }

  lemma OutputDimsPrefix(cfs: seq<CoefficientFunction>, n: nat)
    requires n <= |cfs|
    ensures OutputDims(cfs[..n]) == OutputDims(cfs)[..n]
  {
  }

  lemma AppendAssoc(a: string, b: string, c: string)
    ensures (a + b) + c == a + (b + c)
  {
  }

  lemma StoresTextSnoc(ss: seq<Store>, j: nat, varCode: VarNaming)
    requires j < |ss|
    ensures StoresText(ss[..j + 1], varCode) == StoresText(ss[..j], varCode) + StoreText(ss[j], varCode)
  {
    assert ss[..j + 1][..j] == ss[..j];
  }

  lemma AccessorsTextSnoc(bs: seq<Binding>, b: Binding)
    ensures AccessorsText(bs + [b]) == AccessorsText(bs) + AccessorText(b)
  {
    assert (bs + [b])[..|bs|] == bs;
  }

  /** One more coefficient function adds one block, starting where the
      previous blocks' outputs end. */
  lemma BlocksSnoc(cfs: seq<CoefficientFunction>, n: nat, proxies: seq<TrialProxy>, varCode: VarNaming)
    requires n < |cfs|
    ensures Blocks(cfs[..n + 1], proxies, varCode)
         == Blocks(cfs[..n], proxies, varCode) + BlockText(cfs[n], Sum(OutputDims(cfs[..n])), proxies, varCode)
    ensures Sum(OutputDims(cfs[..n + 1])) == Sum(OutputDims(cfs[..n])) + cfs[n].dim
  {
    assert cfs[..n + 1][..n] == cfs[..n];
    OutputDimsPrefix(cfs, n);
    OutputDimsPrefix(cfs, n + 1);
    SumStep(OutputDims(cfs), n);
  }

  /** The offset table loop: `proxyoffset.Append(starti); starti += dim`. */
  method ProxyOffsets(trialProxies: seq<TrialProxy>) returns (proxyoffset: seq<nat>, starti: nat)
    ensures |proxyoffset| == |trialProxies|
    ensures forall k :: 0 <= k < |trialProxies| ==> proxyoffset[k] == Sum(ProxyDims(trialProxies)[..k])
    ensures proxyoffset == Offsets(ProxyDims(trialProxies))
    ensures starti == Sum(ProxyDims(trialProxies))
  {
    ghost var dims := ProxyDims(trialProxies);
    proxyoffset := [];
    starti := 0;
    var k := 0;
    while k < |trialProxies|
      invariant k <= |trialProxies|
      invariant |proxyoffset| == k
      invariant forall i :: 0 <= i < k ==> proxyoffset[i] == Sum(dims[..i])
      invariant starti == Sum(dims[..k])
    {
      proxyoffset := proxyoffset + [starti];
      SumStep(dims, k);
      starti := starti + trialProxies[k].dim;
      k := k + 1;
    }
    assert dims[..k] == dims;
  }

  lemma AccessorEmitted(steps: seq<Step>, proxies: seq<TrialProxy>, k: nat, b: Binding)
    requires k < |steps| && BindingAt(steps, proxies, k) == [b]
    ensures AccessorsText(Bindings(steps, proxies, k + 1))
         == AccessorsText(Bindings(steps, proxies, k)) + AccessorText(b)
  {
    AccessorsTextSnoc(Bindings(steps, proxies, k), b);
  }

  lemma NoAccessorEmitted(steps: seq<Step>, proxies: seq<TrialProxy>, k: nat)
    requires k < |steps| && BindingAt(steps, proxies, k) == []
    ensures Bindings(steps, proxies, k + 1) == Bindings(steps, proxies, k)
  {
    assert Bindings(steps, proxies, k) + [] == Bindings(steps, proxies, k);
  }

  /** The loop over the compiled steps of one coefficient function: an
      accessor for every step that is a known trial proxy. */
  /** What the generator writes for compiled step `step`: an accessor
      lambda and its flag when the step is a `ProxyFunction` of a trial
      proxy, nothing otherwise. */
  method AccessorFor(trialProxies: seq<TrialProxy>, proxyoffset: seq<nat>, steps: seq<Step>, step: nat)
    returns (text: string)
    requires proxyoffset == Offsets(ProxyDims(trialProxies))
    requires step < |steps|
    ensures AccessorsText(Bindings(steps, trialProxies, step + 1))
         == AccessorsText(Bindings(steps, trialProxies, step)) + text
  {
    text := "";
    if steps[step].ProxyStep? {
      var pos := Pos(trialProxies, steps[step].proxy);
      if pos.Some? {
        var b := Binding(step, proxyoffset[pos.value]);
        AccessorEmitted(steps, trialProxies, step, b);
        text := AccessorText(b);
      } else {
        NoAccessorEmitted(steps, trialProxies, step);
      }
    } else {
      NoAccessorEmitted(steps, trialProxies, step);
    }
  }

  method AppendAccessors(
    s0: string,
    trialProxies: seq<TrialProxy>,
    proxyoffset: seq<nat>,
    steps: seq<Step>)
    returns (s: string)
    requires proxyoffset == Offsets(ProxyDims(trialProxies))
    ensures s == s0 + AccessorsText(Bindings(steps, trialProxies, |steps|))
  {
    s := s0;
    var step := 0;
    ghost var written := "";
    while step < |steps|
      invariant step <= |steps|
      invariant written == AccessorsText(Bindings(steps, trialProxies, step))
      invariant s == s0 + written
    {
      var text := AccessorFor(trialProxies, proxyoffset, steps, step);
      AppendAssoc(s0, written, text);
      s := s + text;
      written := written + text;
      step := step + 1;
    }
  }

  /** The loop over the output components of one coefficient function. */
  method AppendStores(s0: string, cf: CoefficientFunction, baseOutput: nat, varCode: VarNaming)
    returns (s: string)
    ensures s == s0 + StoresText(Stores(cf, baseOutput), varCode)
  {
    s := s0;
    ghost var stores := Stores(cf, baseOutput);
    var j := 0;
    while j < cf.dim
      invariant j <= cf.dim
      invariant s == s0 + StoresText(stores[..j], varCode)
    {
      StoresTextSnoc(stores, j, varCode);
      AppendAssoc(s0, StoresText(stores[..j], varCode), StoreText(stores[j], varCode));
      s := s + StoreText(Store(baseOutput + j, |cf.steps| - 1, j, cf.shape), varCode);
      j := j + 1;
    }
    assert stores[..j] == stores;
  }

  /** One iteration of the loop over the coefficient functions. */
  method AppendBlock(
    s0: string,
    trialProxies: seq<TrialProxy>,
    proxyoffset: seq<nat>,
    cf: CoefficientFunction,
    baseOutput: nat,
    varCode: VarNaming)
    returns (s: string)
    requires proxyoffset == Offsets(ProxyDims(trialProxies))
    ensures s == s0 + BlockText(cf, baseOutput, trialProxies, varCode)
  {
    // `t` is the text appended so far; each append keeps `s == s0 + t`
    s := s0 + BlockOpen;
    ghost var t := BlockOpen;
    s := AppendAccessors(s, trialProxies, proxyoffset, cf.steps);
    ghost var piece := AccessorsText(Bindings(cf.steps, trialProxies, |cf.steps|));
    AppendAssoc(s0, t, piece);
    t := t + piece;
    s := s + LoopHeader;
    AppendAssoc(s0, t, LoopHeader);
    t := t + LoopHeader;
    s := s + cf.body;
    AppendAssoc(s0, t, cf.body);
    t := t + cf.body;
    s := s + "\n";
    AppendAssoc(s0, t, "\n");
    t := t + "\n";
    s := AppendStores(s, cf, baseOutput, varCode);
    piece := StoresText(Stores(cf, baseOutput), varCode);
    AppendAssoc(s0, t, piece);
    t := t + piece;
    s := s + BlockClose;
    AppendAssoc(s0, t, BlockClose);
    t := t + BlockClose;
  }

  /** The text generation of the constructor, appending to `s`. */
  method GenerateSource(
    trialProxies: seq<TrialProxy>,
    proxyoffset: seq<nat>,
    cfs: seq<CoefficientFunction>,
    varCode: VarNaming)
    returns (s: string)
    requires proxyoffset == Offsets(ProxyDims(trialProxies))
    ensures s == Source(trialProxies, cfs, varCode)
  {
    s := KernelHeader;
    var baseOutput: nat := 0;
    var n := 0;
    while n < |cfs|
      invariant n <= |cfs|
      invariant baseOutput == Sum(OutputDims(cfs[..n]))
      invariant s == KernelHeader + Blocks(cfs[..n], trialProxies, varCode)
    {
      s := AppendBlock(s, trialProxies, proxyoffset, cfs[n], baseOutput, varCode);
      AppendAssoc(KernelHeader, Blocks(cfs[..n], trialProxies, varCode), BlockText(cfs[n], baseOutput, trialProxies, varCode));
      BlocksSnoc(cfs, n, trialProxies, varCode);
      baseOutput := baseOutput + cfs[n].dim;
      n := n + 1;
    }
    assert cfs[..n] == cfs;
    s := s + KernelClose;
    s := s + EntryFunction;
  }
}
