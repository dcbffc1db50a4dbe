/** What the generated kernel text guarantees: which steps get input
    accessors, where each output component is stored, the order of the
    pieces inside one block. */
module KernelProperties {
  import opened Wrappers
  import opened Decimal
  import opened RunningTotals
  import opened Expressions
  import opened KernelSource

  /** Step `b.step` is a `ProxyFunction` of a trial proxy and `b.offset` is
      that proxy's entry in the offset table. */
  predicate Accessed(steps: seq<Step>, proxies: seq<TrialProxy>, b: Binding) {
    && b.step < |steps|
    && steps[b.step].ProxyStep?
    && var pos := Pos(proxies, steps[b.step].proxy);
    && pos.Some?
    && b.offset == Offsets(ProxyDims(proxies))[pos.value]
  }

  /** A binding is emitted for the first n steps exactly when its step is
      one of them and refers to a known trial proxy with the table's offset;
      the bindings come in strictly increasing step order, so there is at
      most one per step. */
  lemma {:induction false} BindingsExactly(steps: seq<Step>, proxies: seq<TrialProxy>, n: nat)
    requires n <= |steps|
    ensures forall b :: b in Bindings(steps, proxies, n) <==> b.step < n && Accessed(steps, proxies, b)
    ensures forall i, j :: 0 <= i < j < |Bindings(steps, proxies, n)| ==>
              Bindings(steps, proxies, n)[i].step < Bindings(steps, proxies, n)[j].step
    decreases n
  {
    if n > 0 {
      BindingsExactly(steps, proxies, n - 1);
      var front := Bindings(steps, proxies, n - 1);
      var here := BindingAt(steps, proxies, n - 1);
      assert Bindings(steps, proxies, n) == front + here;
      assert forall b :: b in here <==> b.step == n - 1 && Accessed(steps, proxies, b);
    }
  }

  /** The last coefficient function's stores follow those of the others. */
  lemma AllStoresSnoc(cfs: seq<CoefficientFunction>)
    requires 0 < |cfs|
    ensures var front := cfs[..|cfs| - 1];
            && OutputDims(front) == OutputDims(cfs)[..|cfs| - 1]
            && Sum(OutputDims(cfs)) == Sum(OutputDims(front)) + cfs[|cfs| - 1].dim
            && AllStores(cfs) == AllStores(front) + Stores(cfs[|cfs| - 1], Sum(OutputDims(front)))
  {
    var n := |cfs| - 1;
    OutputDimsPrefix(cfs, n);
    SumStep(OutputDims(cfs), n);
    assert OutputDims(cfs)[..n + 1] == OutputDims(cfs);
  }

  /** Over all blocks, the stores write each output component 0, 1, ...,
      Sum(dims) - 1 exactly once and in that order; the store of component c
      belongs to the coefficient function whose output range holds c, and it
      reads component c - base of that function's last compiled step. */
  lemma {:induction false} AllStoresTile(cfs: seq<CoefficientFunction>)
    ensures |AllStores(cfs)| == Sum(OutputDims(cfs))
    ensures forall c :: 0 <= c < |AllStores(cfs)| ==> AllStores(cfs)[c].component == c
    ensures forall c :: 0 <= c < |AllStores(cfs)| ==>
              var k := Owner(OutputDims(cfs), c);
              && AllStores(cfs)[c].step == |cfs[k].steps| - 1
              && AllStores(cfs)[c].comp == c - Offsets(OutputDims(cfs))[k]
              && AllStores(cfs)[c].shape == cfs[k].shape
    decreases |cfs|
  {
    if cfs != [] {
      var n := |cfs| - 1;
      var front := cfs[..n];
      AllStoresTile(front);
      AllStoresSnoc(cfs);
      var ds := OutputDims(cfs);
      var base := Sum(OutputDims(front));
      forall c | 0 <= c < |AllStores(cfs)|
        ensures AllStores(cfs)[c].component == c
        ensures var k := Owner(ds, c);
                && AllStores(cfs)[c].step == |cfs[k].steps| - 1
                && AllStores(cfs)[c].comp == c - Offsets(ds)[k]
                && AllStores(cfs)[c].shape == cfs[k].shape
      {
        var k := Owner(ds, c);
        if c < base {
          var k' := Owner(OutputDims(front), c);
          assert ds[..n][..k'] == ds[..k'];
          OwnerUnique(ds, c, k');
        } else {
          OwnerUnique(ds, c, n);
        }
      }
    }
  }

  lemma AccessorsTextStep(bs: seq<Binding>, k: nat)
    requires k < |bs|
    ensures AccessorsText(bs[..k + 1]) == AccessorsText(bs[..k]) + AccessorText(bs[k])
  {
    assert bs[..k + 1][..k] == bs[..k];
  }

  /** The accessors of the first k bindings are a prefix of those of all. */
  lemma {:induction false} AccessorsPrefix(bs: seq<Binding>, k: nat)
    requires k <= |bs|
    ensures AccessorsText(bs[..k]) <= AccessorsText(bs)
    decreases |bs| - k
  {
    if k == |bs| {
      assert bs[..k] == bs;
    } else {
      AccessorsTextStep(bs, k);
      AccessorsPrefix(bs, k + 1);
    }
  }

  /** Within the accessor section, the accessor of binding k comes right
      after those of the bindings before it. */
  lemma AccessorAt(bs: seq<Binding>, k: nat)
    requires k < |bs|
    ensures AccessorsText(bs[..k]) + AccessorText(bs[k]) <= AccessorsText(bs)
  {
    AccessorsTextStep(bs, k);
    AccessorsPrefix(bs, k + 1);
  }

  lemma PrefixOfAppend(head: string, tail1: string, tail2: string, tail3: string)
    ensures head <= head + tail1 + tail2 + tail3
  {
  }

  /** A block starts with its opening brace, then all accessor bindings,
      then the grid-stride loop header, then the compiled body. */
  lemma BlockSectionsInOrder(cf: CoefficientFunction, base: nat, proxies: seq<TrialProxy>, varCode: VarNaming)
    ensures BlockOpen + AccessorsText(Bindings(cf.steps, proxies, |cf.steps|)) + LoopHeader + cf.body
            <= BlockText(cf, base, proxies, varCode)
  {
    var all := AccessorsText(Bindings(cf.steps, proxies, |cf.steps|));
    PrefixOfAppend(BlockOpen + all + LoopHeader + cf.body, "\n", StoresText(Stores(cf, base), varCode), BlockClose);
  }
}
