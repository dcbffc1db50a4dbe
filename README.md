# Device version of ApplyIntegrationPoints

This project models the construction and use of `DevApplyIntegrationPoints`, the CUDA
version of the `ApplyIntegrationPoints` operator in `ngscuda/cuda_applyIR.cpp`.
The constructor does four things:

- It builds an offset table that places every trial proxy in the flattened per-point input.
- It writes the CUDA translation unit into a `stringstream`. The text holds one
  `__global__` kernel with one block per coefficient function, then an `extern "C"`
  entry function that launches the kernel on 256 blocks of 256 threads.
- It compiles that text with `ngs_nvcc`, and a nonzero exit status aborts construction.
- It loads the library and resolves `ApplyIPFunction`.

`Mult` calls the entry point once. `VHeight` and `VWidth` return the shape captured at
construction.

The modules are:

- `RunningTotals` (offsets.dfy): running totals of dimensions.
  - `Sum` and `Offsets`, plus `Owner`, the entry whose range holds a component.
  - The same accumulation gives the proxy offsets (`starti`) and the output bases
    (`base_output`).
- `Decimal` (decimal.dfy): how `<<` prints a non-negative integer, with its parse as the
  inverse.
- `Expressions` (expressions.dfy): what the constructor gets from the host operator and
  the expression compiler.
  - The compiler itself is outside the model. It appears as inputs: trial proxies with
    dimensions, and per coefficient function its dimension, shape, compiled steps (a
    `ProxyFunction` of some proxy, or anything else) and code body.
  - `Var(...).code` is a parameter `varCode`.
  - `Array::Pos` is `Pos`.
- `KernelSource` (kernel_source.dfy): the generated text.
  - Functions define the text: `Bindings`, `Stores`, `BlockText`, `Blocks`, `Source`.
  - Methods with the source's loops build it: `ProxyOffsets`, `AccessorFor`,
    `AppendAccessors`, `AppendStores`, `AppendBlock`, `GenerateSource`. Each is proved
    to append exactly the defined text.
- `KernelProperties` (kernel_properties.dfy): which steps get accessors, how the stores
  tile the output components, and the order of the pieces inside a block.
- `KernelBraces` (kernel_braces.dfy): brace counting over the generated text.
- `DeviceLayout` (device_layout.dfy): thread ids, the grid-stride loop, and the
  component-major index `i + comp*dist` used by accessors and stores.
- `DeviceOperator` (device_operator.dfy): the class with its constant shape, `VHeight`,
  `VWidth`, `Mult`, and `Build`, the fallible constructor.

## Model

| member | source | states |
|---|---|---|
| KernelSource.ProxyOffsets | ngscuda/cuda_applyIR.cpp:35-41 | one offset per trial proxy, in list order; entry k is the total dimension of proxies 0..k-1; `starti` ends at the total of all proxy dimensions |
| RunningTotals.OffsetsContiguous | ngscuda/cuda_applyIR.cpp:36-40 | the offset table has one entry per proxy and starts at 0; each entry follows the previous one by that proxy's dimension; the last range ends at the total |
| RunningTotals.RangesDisjoint | ngscuda/cuda_applyIR.cpp:36-40 | offsets are nondecreasing: an earlier proxy's range ends before a later one starts, so no component lies in two ranges |
| RunningTotals.RangeWithinTotal | ngscuda/cuda_applyIR.cpp:36-40 | every proxy's component range lies inside [0, starti) |
| RunningTotals.SumMonotone | ngscuda/cuda_applyIR.cpp:36-40 | the running total never decreases as more entries are added |
| RunningTotals.Owner | ngscuda/cuda_applyIR.cpp:36-40 | every component below the total lies in the range of some entry |
| RunningTotals.OwnerUnique | ngscuda/cuda_applyIR.cpp:36-40 | that entry is unique: any entry whose range holds the component is `Owner` |
| Decimal.FromNatCanonical | ngscuda/cuda_applyIR.cpp:65-67 | the printed integer is non-empty decimal digits with no leading zero |
| Decimal.ToNatFromNat | ngscuda/cuda_applyIR.cpp:65-67 | parsing the printed step number or offset gives back the number |
| Decimal.FromNatToNat | ngscuda/cuda_applyIR.cpp:79 | every canonical digit string is the printing of the number it denotes |
| Decimal.FromNatInjective | ngscuda/cuda_applyIR.cpp:79 | distinct components print as distinct text, so distinct stores name distinct output rows |
| Decimal.LeadingNonzeroIsPositive | ngscuda/cuda_applyIR.cpp:79 | a digit string whose first digit is not 0 denotes a positive number |
| Expressions.Pos | ngscuda/cuda_applyIR.cpp:63 | `Pos` returns the first index holding the proxy, or `None` (`ILLEGAL_POSITION`) exactly when no entry holds it |
| KernelSource.AccessorFor | ngscuda/cuda_applyIR.cpp:62-68 | what is written for one step extends the accessor text exactly as `Bindings` defines it: a lambda and flag for a known `ProxyFunction`, nothing otherwise |
| KernelSource.AppendAccessors | ngscuda/cuda_applyIR.cpp:61-68 | the loop over the compiled steps appends exactly the accessors of all bindings, in step order |
| KernelSource.AppendStores | ngscuda/cuda_applyIR.cpp:78-80 | the loop over components appends one store per output component, in order, starting at `base_output` |
| KernelSource.AppendBlock | ngscuda/cuda_applyIR.cpp:58-83 | one iteration appends exactly the block: `{`, accessors, loop header, body and newline, stores, `}\n}` |
| KernelSource.GenerateSource | ngscuda/cuda_applyIR.cpp:43-90 | the whole `stringstream` equals `Source`: header, one block per coefficient function with `base_output` the running total of earlier dimensions, closing brace, entry function |
| KernelSource.BlocksSnoc | ngscuda/cuda_applyIR.cpp:81 | one more coefficient function appends one block, and `base_output` grows by that function's dimension |
| KernelProperties.BindingsExactly | ngscuda/cuda_applyIR.cpp:61-68 | a `values_<step>` binding is emitted exactly for steps that are a `ProxyFunction` of a trial proxy found by `Pos`, with offset `proxyoffset[pos]`; bindings come in increasing step order, at most one per step |
| KernelProperties.AllStoresTile | ngscuda/cuda_applyIR.cpp:78-81 | over all blocks there is exactly one store per output component 0..total-1, in order; the store of component c belongs to the coefficient function whose range holds c, reads component c - base of that function's last step (`Steps().Size()-1`), and uses its shape |
| KernelProperties.AccessorsPrefix | ngscuda/cuda_applyIR.cpp:61-68 | the accessors of earlier steps are written before those of later steps |
| KernelProperties.AccessorAt | ngscuda/cuda_applyIR.cpp:61-68 | the accessor of binding k directly follows the accessors of the bindings before it |
| KernelProperties.BlockSectionsInOrder | ngscuda/cuda_applyIR.cpp:58-75 | each block begins with `{`, then all accessor bindings, then the grid-stride loop header, then the compiled body |
| KernelBraces.SourceBalanced | ngscuda/cuda_applyIR.cpp:44-90 | if every compiled body and every variable name has balanced braces, the whole translation unit does; the kernel function's brace stays open across all blocks |
| KernelBraces.HeaderOpens | ngscuda/cuda_applyIR.cpp:44-50 | the kernel header opens exactly one brace |
| KernelBraces.LoopHeaderOpens | ngscuda/cuda_applyIR.cpp:71-72 | the loop header opens exactly one brace |
| KernelBraces.BlockBalanced | ngscuda/cuda_applyIR.cpp:58-83 | a block with a balanced body is balanced: `{` and the loop `{` are closed by `}\n}` |
| KernelBraces.BlocksBalanced | ngscuda/cuda_applyIR.cpp:53-84 | the sequence of blocks is balanced when every body is |
| KernelBraces.AccessorBalanced | ngscuda/cuda_applyIR.cpp:65-67 | an accessor lambda closes the brace it opens |
| KernelBraces.StoreBalanced | ngscuda/cuda_applyIR.cpp:79-80 | a store is balanced when its variable name is |
| KernelBraces.EntryBalanced | ngscuda/cuda_applyIR.cpp:87-90 | the entry function closes the brace it opens |
| DeviceLayout.ThreadIdBijective | ngscuda/cuda_applyIR.cpp:71 | `blockIdx.x*blockDim.x+threadIdx.x` numbers the 256x256 threads one to one onto [0, 65536) |
| DeviceLayout.RunLane | ngscuda/cuda_applyIR.cpp:72 | one thread's loop visits exactly `LaneVisits(tid, nip)` |
| DeviceLayout.LaneVisitsExactly | ngscuda/cuda_applyIR.cpp:72 | a thread visits exactly the points below `nip` congruent to its id modulo `blockDim.x*gridDim.x`, in increasing order |
| DeviceLayout.GridCoversEachPointOnce | ngscuda/cuda_applyIR.cpp:71-72 | every point below `nip` is visited by exactly one thread of the launch; when `nip` is 0 no thread iterates |
| DeviceLayout.BatchedIndexBijective | ngscuda/cuda_applyIR.cpp:79 | with stride `nip`, `i + comp*nip` is a bijection from points x components onto [0, total*nip), inverted by `% nip` and `/ nip` |
| DeviceLayout.AccessorReadsOwnSlab | ngscuda/cuda_applyIR.cpp:66 | `input[i + (comp+proxyoffset[pos])*dist_input]` with stride `nip` stays below `starti*nip` and reads only the slab of proxy `pos` |
| DeviceOperator.ToInt32 | ngscuda/cuda_applyIR.cpp:127-128 | the `size_t` to `int` narrowing gives a 32-bit value congruent to the input modulo 2^32, and equal to it when it fits |
| DeviceOperator.DevApplyIntegrationPoints.constructor | ngscuda/cuda_applyIR.cpp:24-29 | `h`, `w`, `dimx`, `dimy`, `nip` are the host operator's values; the library and function are those passed in |
| DeviceOperator.DevApplyIntegrationPoints.VHeight | ngscuda/cuda_applyIR.cpp:127 | returns the constant `h` captured at construction, narrowed to `int` |
| DeviceOperator.DevApplyIntegrationPoints.VWidth | ngscuda/cuda_applyIR.cpp:128 | returns the constant `w` captured at construction, narrowed to `int` |
| DeviceOperator.DevApplyIntegrationPoints.Mult | ngscuda/cuda_applyIR.cpp:123 | calls the compiled entry point with `nip` as point count and as both strides |
| DeviceOperator.Build | ngscuda/cuda_applyIR.cpp:98-109 | a nonzero compiler status yields a failure and nothing is loaded; a failed load yields a failure; otherwise a fresh operator holding the library built from exactly `Source`, its `ApplyIPFunction` entry, and the host operator's shape |
| DeviceOperator.MultWritesEachOutput | ngscuda/cuda_applyIR.cpp:79 | with the strides `Mult` passes, every output entry below total*nip is written by the store of component x / nip at point x % nip, and some thread visits that point |
| DeviceOperator.MultWritesOnce | ngscuda/cuda_applyIR.cpp:79 | two (store, point) pairs that write the same output entry are the same pair |

## Left out

- Compiling and loading are parameters of `Build`:
  - The compiler's exit status is a function `nvcc` of the translation unit.
  - "The library loads and exposes the symbol" is a predicate `loads`.
  - The temporary directory, the `.cu` file, the `system` call and `dlopen` are process and
    file-system I/O.
  - A library is identified by the source it was built from.
  - `SharedLibrary` and `GetSymbol` are not part of this model.
- Build: the source sets `h`, `w`, `dimx`, `dimy` and `nip` before generating, and the
  exception discards the half-built object. The model creates the operator only on
  success. The caller cannot observe the difference.
- The kernel launch, `cudaDeviceSynchronize`, device concurrency and the floating-point
  values the kernel computes are left out. Only the index arithmetic of the launch
  (thread ids, grid-stride visits, batched indices) is modelled.
- `UnifiedVectorWrapper` and `FVDevRO`/`FVDev` are left out. `Mult` returns the call
  it makes, without the vectors. No size check is added, since the source has none.
- The expression compiler (`Compile`, `GenerateProgram`, `Steps`, `Var(...).code`,
  `Evaluator()->Dim()`) is not part of this model. Its results are inputs.
- `Array::Pos` comes from a library that is not part of this model. It is modelled as a
  first-match linear search.
- The device-matrix registry (`InitApplyIntegrationPoints`) is left out.
- The debug print of the generated text is left out.
- KernelSource.ProxyOffsets: `starti` and `base_output` are C++ `int`, and the loop
  counters `j` and `i` are `int` too. The model uses unbounded naturals, so it does not
  capture overflow past 2^31 - 1 components or points.
- KernelSource.AppendStores: for a coefficient function with no compiled steps,
  `Steps().Size()-1` wraps around as a `size_t`. The model passes the step index to
  `varCode` as the mathematical integer `|steps| - 1`, that is -1.
- KernelBraces.SourceBalanced: it states equal counts of `{` and `}`. It requires
  balanced compiled bodies and variable names, which the source trusts the compiler for.
  It does not show that no prefix closes more braces than it opened.
- DeviceLayout.AccessorReadsOwnSlab: the vector's own length is not modelled. It shows
  the index stays below `starti*nip`, not that the vector is that long.
- DeviceOperator.DevApplyIntegrationPoints.Mult: the kernel's effect on `y` is not
  modelled. It states only the call made; the effect on indices is in
  `MultWritesEachOutput` and `MultWritesOnce`.
