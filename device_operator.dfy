/** The device operator `DevApplyIntegrationPoints`: built from a host
    `ApplyIntegrationPoints` by generating CUDA source, compiling it and
    resolving the entry point; afterwards it has a fixed shape and applies
    itself by one call of that entry point. */
module DeviceOperator {
  import opened Wrappers
  import opened RunningTotals
  import opened Expressions
  import opened KernelSource
  import opened KernelProperties
  import opened DeviceLayout

  /** What the constructor reads from the host operator: `Height()`,
      `Width()`, `GetDimX()`, `GetDimY()`, `GetNIP()`, `GetTrialProxies()`
      and `GetCFs()` (the latter already compiled, see `Expressions`). */
  datatype ApplyIntegrationPoints = ApplyIntegrationPoints(
    height: nat,
    width: nat,
    dimx: nat,
    dimy: nat,
    nip: nat,
    trialProxies: seq<TrialProxy>,
    cfs: seq<CoefficientFunction>)

  /** A shared library, identified by the translation unit it was built from. */
  datatype Library = Library(source: string)

  /** A symbol resolved in a loaded library. */
  datatype EntryPoint = EntryPoint(library: Library, symbol: string)

  /** One call of the entry point: `(nip, input, dist_input, output, dist_output)`
      without the vectors themselves. */
  datatype EntryCall = EntryCall(entry: EntryPoint, nip: nat, distInput: nat, distOutput: nat)

  /** Why construction throws. */
  datatype BuildError =
    | CompilerFailed(status: int)  // `system(...)` returned nonzero
    | LoadFailed                   // the library or its symbol could not be loaded

  /** Conversion of a `size_t` to a 32-bit `int`, as the `VHeight`/`VWidth`
      return statements perform it (modulo 2^32, two's complement). */
  function ToInt32(x: nat): (r: int)
    ensures -0x8000_0000 <= r < 0x8000_0000
    ensures (x - r) % 0x1_0000_0000 == 0
    ensures x < 0x8000_0000 ==> r == x
  {
    var m := x % 0x1_0000_0000;
    if m < 0x8000_0000 then m else m - 0x1_0000_0000
  }

  class DevApplyIntegrationPoints {
    const h: nat
    const w: nat
    const dimx: nat
    const dimy: nat
    const nip: nat
    const library: Library
    const compiledFunction: EntryPoint

    /** Captures the shape of the host operator together with the loaded
        library and its entry point; nothing changes them afterwards. */
    constructor (aip: ApplyIntegrationPoints, library: Library, compiledFunction: EntryPoint)
      ensures h == aip.height && w == aip.width
      ensures dimx == aip.dimx && dimy == aip.dimy && nip == aip.nip
      ensures this.library == library && this.compiledFunction == compiledFunction
    {
      h := aip.height;
      w := aip.width;
      dimx := aip.dimx;
      dimy := aip.dimy;
      nip := aip.nip;
      this.library := library;
      this.compiledFunction := compiledFunction;
    }

    /** The height captured at construction, as a 32-bit `int`: exact while it fits. */
    function VHeight(): (r: int)
      ensures -0x8000_0000 <= r < 0x8000_0000
      ensures (h - r) % 0x1_0000_0000 == 0
      ensures h < 0x8000_0000 ==> r == h
    {
      ToInt32(h)
    }

    /** The width captured at construction, as a 32-bit `int`: exact while it fits. */
    function VWidth(): (r: int)
      ensures -0x8000_0000 <= r < 0x8000_0000
      ensures (w - r) % 0x1_0000_0000 == 0
      ensures w < 0x8000_0000 ==> r == w
    {
      ToInt32(w)
    }

    /** `y = A x`: calls the compiled entry point once, with the number of
        integration points as the point count and as both vector strides. */
    method Mult() returns (call: EntryCall)
      ensures call.entry == compiledFunction
      ensures call.nip == nip && call.distInput == nip && call.distOutput == nip
    {
      call := EntryCall(compiledFunction, nip, nip, nip);
    }
  }

  /** The constructor: offset table, kernel text, compilation, loading.
      `nvcc` is the exit status of the compiler on a translation unit and
      `loads` says whether the library built from it loads and exposes the
      entry symbol. A nonzero status aborts construction before anything is
      loaded; otherwise the new operator holds the library built from exactly
      the generated source and its `ApplyIPFunction` symbol. */
  method Build(
    aip: ApplyIntegrationPoints,
    varCode: VarNaming,
    nvcc: string -> int,
    loads: string -> bool)
    returns (r: Result<DevApplyIntegrationPoints, BuildError>)
    ensures var src := Source(aip.trialProxies, aip.cfs, varCode);
            nvcc(src) != 0 ==> r == Failure(CompilerFailed(nvcc(src)))
    ensures var src := Source(aip.trialProxies, aip.cfs, varCode);
            nvcc(src) == 0 && !loads(src) ==> r == Failure(LoadFailed)
    ensures var src := Source(aip.trialProxies, aip.cfs, varCode);
            r.Success? <==> nvcc(src) == 0 && loads(src)
    ensures r.Success? ==>
              && fresh(r.value)
              && r.value.h == aip.height && r.value.w == aip.width
              && r.value.dimx == aip.dimx && r.value.dimy == aip.dimy
              && r.value.nip == aip.nip
              && r.value.library == Library(Source(aip.trialProxies, aip.cfs, varCode))
              && r.value.compiledFunction == EntryPoint(r.value.library, EntryName)
  {
    var proxyoffset, starti := ProxyOffsets(aip.trialProxies);
    var s := GenerateSource(aip.trialProxies, proxyoffset, aip.cfs, varCode);
    var err := nvcc(s);
    if err != 0 {
      return Failure(CompilerFailed(err));
    }
    if !loads(s) {
      return Failure(LoadFailed);
    }
    var library := Library(s);
    var op := new DevApplyIntegrationPoints(aip, library, EntryPoint(library, EntryName));
    return Success(op);
  }

  /** What one `Mult` does to the output vector: with the strides `nip`
      that `Mult` passes, output entry x (below total components times
      `nip`) is written by the store for component x / nip at point x % nip,
      and that point is visited by exactly one thread of the launch. */
  lemma MultWritesEachOutput(cfs: seq<CoefficientFunction>, nip: nat, x: nat)
    requires x < Sum(OutputDims(cfs)) * nip
    ensures x / nip < |AllStores(cfs)| && x % nip < nip
    ensures BatchedIndex(x % nip, AllStores(cfs)[x / nip].component, nip) == x
    ensures x % nip in LaneVisits((x % nip) % Lanes, nip)
  {
    var total := Sum(OutputDims(cfs));
    BatchedIndexBijective(0, 0, nip, total, x);
    var c, i := x / nip, x % nip;
    AllStoresTile(cfs);
    assert AllStores(cfs)[c].component == c;
    GridCoversEachPointOnce(i, 0, nip);
  }

  /** No output entry is written twice: distinct (store, point) pairs of a
      `Mult` land on distinct output entries. */
  lemma MultWritesOnce(cfs: seq<CoefficientFunction>, nip: nat, c: nat, i: nat, c': nat, i': nat)
    requires c < |AllStores(cfs)| && i < nip && c' < |AllStores(cfs)| && i' < nip
    requires BatchedIndex(i, AllStores(cfs)[c].component, nip)
          == BatchedIndex(i', AllStores(cfs)[c'].component, nip)
    ensures c == c' && i == i'
  {
    AllStoresTile(cfs);
    assert AllStores(cfs)[c].component == c && AllStores(cfs)[c'].component == c';
    var total := Sum(OutputDims(cfs));
    BatchedIndexBijective(i, c, nip, total, 0);
    BatchedIndexBijective(i', c', nip, total, 0);
  }
}
