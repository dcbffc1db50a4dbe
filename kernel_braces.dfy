/** Brace balance of the generated text: the wrapper around the compiled
    bodies opens exactly as many braces as it closes. */
module KernelBraces {
  import opened Decimal
  import opened RunningTotals
  import opened Expressions
  import opened KernelSource

  function Delta(c: char): int {
    if c == '{' then 1 else if c == '}' then -1 else 0
  }

  /** Opening minus closing braces. */
  function Depth(s: string): int {
    if s == [] then 0 else Depth(s[..|s| - 1]) + Delta(s[|s| - 1])
  }

  predicate BraceFree(s: string) {
    forall i :: 0 <= i < |s| ==> s[i] != '{' && s[i] != '}'
  }

  lemma {:induction false} DepthAppend(a: string, b: string)
    ensures Depth(a + b) == Depth(a) + Depth(b)
    decreases |b|
  {
    if b != [] {
      var front := b[..|b| - 1];
      DepthAppend(a, front);
      assert (a + b)[..|a + b| - 1] == a + front;
      assert (a + b)[|a + b| - 1] == b[|b| - 1];
    } else {
      assert a + b == a;
    }
  }

  lemma {:induction false} BraceFreeDepth(s: string)
    requires BraceFree(s)
    ensures Depth(s) == 0
    decreases |s|
  {
    if s != [] {
      BraceFreeDepth(s[..|s| - 1]);
    }
  }

  lemma NumeralBraceFree(n: nat)
    ensures BraceFree(FromNat(n))
  {
    FromNatCanonical(n);
  }

  lemma ConcatStep(ps: seq<string>, k: nat)
    requires k < |ps|
    ensures Depth(Concat(ps[..k + 1])) == Depth(Concat(ps[..k])) + Depth(ps[k])
  {
    assert ps[..k + 1][..k] == ps[..k];
    DepthAppend(Concat(ps[..k]), ps[k]);
  }

  lemma OpenBrace()
    ensures Depth("{\n") == 1 && Depth(" {") == 1
  {
    assert "{\n"[..1] == "{" && "{"[..0] == "";
    assert " {"[..1] == " " && " "[..0] == "";
  }

  lemma CloseBrace()
    ensures Depth("};\n") == -1 && Depth("} \n") == -1
    ensures Depth("}\n") == -1 && Depth("}\n}") == -2
  {
    assert "};\n"[..2] == "};" && "};"[..1] == "}" && "}"[..0] == "";
    assert "} \n"[..2] == "} " && "} "[..1] == "}";
    assert "}\n}"[..2] == "}\n" && "}\n"[..1] == "}";
  }

  lemma AccessorLiterals1()
    ensures Depth("auto values_") == 0 && Depth(" = [dist_input,input]") == 0
    ensures Depth("(size_t i, int comp)\n") == 0 && Depth(" return ") == 0
  {
    BraceFreeDepth("auto values_");
    BraceFreeDepth(" = [dist_input,input]");
    BraceFreeDepth("(size_t i, int comp)\n");
    BraceFreeDepth(" return ");
  }

  lemma AccessorLiterals2()
    ensures Depth("input[i + (comp+") == 0 && Depth(")*dist_input]; ") == 0
    ensures Depth("bool constexpr ") == 0 && Depth("has_values_") == 0
    ensures Depth(" = true;\n") == 0 && Depth("\n") == 0
  {
    BraceFreeDepth("input[i + (comp+");
    BraceFreeDepth(")*dist_input]; ");
    BraceFreeDepth("bool constexpr ");
    BraceFreeDepth("has_values_");
    BraceFreeDepth(" = true;\n");
    BraceFreeDepth("\n");
  }

  /** The lambda `values_<step>` opens and closes its body's brace. */
  lemma LambdaBalanced(b: Binding)
    ensures Depth(Concat(LambdaFragments(b))) == 0
  {
    NumeralBraceFree(b.step);
    BraceFreeDepth(FromNat(b.step));
    NumeralBraceFree(b.offset);
    BraceFreeDepth(FromNat(b.offset));
    AccessorLiterals1();
    AccessorLiterals2();
    OpenBrace();
    CloseBrace();
    var ps := LambdaFragments(b);
    var k := 0;
    while k < |ps|
      invariant k <= |ps|
      invariant Depth(Concat(ps[..k])) == if 4 < k < 10 then 1 else 0
    {
      ConcatStep(ps, k);
      k := k + 1;
    }
    assert ps[..k] == ps;
  }

  lemma FlagBraceFree(b: Binding)
    ensures Depth(Concat(FlagFragments(b))) == 0
  {
    NumeralBraceFree(b.step);
    BraceFreeDepth(FromNat(b.step));
    AccessorLiterals2();
    var ps := FlagFragments(b);
    var k := 0;
    while k < |ps|
      invariant k <= |ps|
      invariant Depth(Concat(ps[..k])) == 0
    {
      ConcatStep(ps, k);
      k := k + 1;
    }
    assert ps[..k] == ps;
  }

  /** An accessor binding opens and closes one brace (its lambda body). */
  lemma AccessorBalanced(b: Binding)
    ensures Depth(AccessorText(b)) == 0
  {
    LambdaBalanced(b);
    FlagBraceFree(b);
    DepthAppend(Concat(LambdaFragments(b)), Concat(FlagFragments(b)));
  }

  /** Every variable name the expression compiler hands out has balanced braces. */
  ghost predicate VarCodeBalanced(varCode: VarNaming) {
    forall step, comp, shape :: Depth(varCode(step, comp, shape)) == 0
  }

  lemma StoreBalanced(st: Store, varCode: VarNaming)
    requires Depth(varCode(st.step, st.comp, st.shape)) == 0
    ensures Depth(StoreText(st, varCode)) == 0
  {
    NumeralBraceFree(st.component);
    BraceFreeDepth(FromNat(st.component));
    BraceFreeDepth("output[i+");
    BraceFreeDepth("*dist_output] = ");
    BraceFreeDepth(";\n");
    var ps := StoreFragments(st, varCode);
    var k := 0;
    while k < |ps|
      invariant k <= |ps|
      invariant Depth(Concat(ps[..k])) == 0
    {
      ConcatStep(ps, k);
      k := k + 1;
    }
    assert ps[..k] == ps;
  }

  lemma {:induction false} AccessorsBalanced(bs: seq<Binding>)
    ensures Depth(AccessorsText(bs)) == 0
    decreases |bs|
  {
    if bs != [] {
      AccessorsBalanced(bs[..|bs| - 1]);
      AccessorBalanced(bs[|bs| - 1]);
      DepthAppend(AccessorsText(bs[..|bs| - 1]), AccessorText(bs[|bs| - 1]));
    }
  }

  lemma {:induction false} StoresBalanced(ss: seq<Store>, varCode: VarNaming)
    requires VarCodeBalanced(varCode)
    ensures Depth(StoresText(ss, varCode)) == 0
    decreases |ss|
  {
    if ss != [] {
      StoresBalanced(ss[..|ss| - 1], varCode);
      StoreBalanced(ss[|ss| - 1], varCode);
      DepthAppend(StoresText(ss[..|ss| - 1], varCode), StoreText(ss[|ss| - 1], varCode));
    }
  }

  lemma LoopHeaderOpens()
    ensures Depth(LoopHeader) == 1
  {
    BraceFreeDepth("int tid = ");
    BraceFreeDepth("blockIdx.x*blockDim.x");
    BraceFreeDepth("+threadIdx.x;\n");
    BraceFreeDepth("for (int i = tid; ");
    BraceFreeDepth("i < nip; ");
    BraceFreeDepth("i += blockDim.x*gridDim.x) ");
    OpenBrace();
    var ps := [ "int tid = ", "blockIdx.x*blockDim.x", "+threadIdx.x;\n", "for (int i = tid; ",
                "i < nip; ", "i += blockDim.x*gridDim.x) ", "{\n" ];
    var k := 0;
    while k < |ps|
      invariant k <= |ps|
      invariant Depth(Concat(ps[..k])) == if k == 7 then 1 else 0
    {
      ConcatStep(ps, k);
      k := k + 1;
    }
    assert ps[..k] == ps;
  }

  /** A block leaves the brace depth unchanged when its compiled body does. */
  lemma BlockBalanced(cf: CoefficientFunction, base: nat, proxies: seq<TrialProxy>, varCode: VarNaming)
    requires Depth(cf.body) == 0 && VarCodeBalanced(varCode)
    ensures Depth(BlockText(cf, base, proxies, varCode)) == 0
  {
    var a := AccessorsText(Bindings(cf.steps, proxies, |cf.steps|));
    var st := StoresText(Stores(cf, base), varCode);
    AccessorsBalanced(Bindings(cf.steps, proxies, |cf.steps|));
    StoresBalanced(Stores(cf, base), varCode);
    LoopHeaderOpens();
    OpenBrace();
    CloseBrace();
    BraceFreeDepth("\n");
    DepthAppend(BlockOpen, a);
    DepthAppend(BlockOpen + a, LoopHeader);
    DepthAppend(BlockOpen + a + LoopHeader, cf.body);
    DepthAppend(BlockOpen + a + LoopHeader + cf.body, "\n");
    DepthAppend(BlockOpen + a + LoopHeader + cf.body + "\n", st);
    DepthAppend(BlockOpen + a + LoopHeader + cf.body + "\n" + st, BlockClose);
  }

  lemma {:induction false} BlocksBalanced(cfs: seq<CoefficientFunction>, proxies: seq<TrialProxy>, varCode: VarNaming)
    requires forall k :: 0 <= k < |cfs| ==> Depth(cfs[k].body) == 0
    requires VarCodeBalanced(varCode)
    ensures Depth(Blocks(cfs, proxies, varCode)) == 0
    decreases |cfs|
  {
    if cfs != [] {
      var front := cfs[..|cfs| - 1];
      BlocksBalanced(front, proxies, varCode);
      BlockBalanced(cfs[|cfs| - 1], Sum(OutputDims(front)), proxies, varCode);
      DepthAppend(Blocks(front, proxies, varCode),
                  BlockText(cfs[|cfs| - 1], Sum(OutputDims(front)), proxies, varCode));
    }
  }

  lemma HeaderLiterals()
    ensures Depth("#include <bla.hpp>\n") == 0 && Depth("#include <cuda_linalg.hpp>\n") == 0
    ensures Depth("#include <cstddef>\n") == 0 && Depth("using namespace ngbla;\n") == 0
    ensures Depth("__global__ void ") == 0 && Depth("ApplyIPFunctionKernel ") == 0
  {
    BraceFreeDepth("#include <bla.hpp>\n");
    BraceFreeDepth("#include <cuda_linalg.hpp>\n");
    BraceFreeDepth("#include <cstddef>\n");
    BraceFreeDepth("using namespace ngbla;\n");
    BraceFreeDepth("__global__ void ");
    BraceFreeDepth("ApplyIPFunctionKernel ");
  }

  lemma SignatureLiterals()
    ensures Depth("(size_t nip, ") == 0 && Depth("double * input, ") == 0
    ensures Depth("size_t dist_input,\n") == 0 && Depth("                      ") == 0
    ensures Depth("double * output, ") == 0 && Depth("size_t dist_output) ") == 0
  {
    BraceFreeDepth("(size_t nip, ");
    BraceFreeDepth("double * input, ");
    BraceFreeDepth("size_t dist_input,\n");
    BraceFreeDepth("                      ");
    BraceFreeDepth("double * output, ");
    BraceFreeDepth("size_t dist_output) ");
  }

  lemma IncludesBraceFree()
    ensures Depth(KernelIncludes) == 0
  {
    HeaderLiterals();
    var ps := [
      "#include <bla.hpp>\n", "#include <cuda_linalg.hpp>\n", "#include <cstddef>\n",
      "using namespace ngbla;\n" ];
    var k := 0;
    while k < |ps|
      invariant k <= |ps|
      invariant Depth(Concat(ps[..k])) == 0
    {
      ConcatStep(ps, k);
      k := k + 1;
    }
    assert ps[..k] == ps;
  }

  lemma KernelSignatureOpens()
    ensures Depth(KernelSignature) == 1
  {
    HeaderLiterals();
    SignatureLiterals();
    OpenBrace();
    var ps := [
      "__global__ void ", "ApplyIPFunctionKernel ", "(size_t nip, ",
      "double * input, ", "size_t dist_input,\n", "                      ", "double * output, ",
      "size_t dist_output) ", "{\n" ];
    var k := 0;
    while k < |ps|
      invariant k <= |ps|
      invariant Depth(Concat(ps[..k])) == if k == 9 then 1 else 0
    {
      ConcatStep(ps, k);
      k := k + 1;
    }
    assert ps[..k] == ps;
  }

  /** The kernel header leaves the kernel function's brace open. */
  lemma HeaderOpens()
    ensures Depth(KernelHeader) == 1
  {
    IncludesBraceFree();
    KernelSignatureOpens();
    DepthAppend(KernelIncludes, KernelSignature);
  }

  lemma EntryLiterals1()
    ensures Depth("extern \"C\" void ") == 0 && Depth(EntryName) == 0
    ensures Depth(" (size_t nip, ") == 0 && Depth("BareVector<Dev<double>> ") == 0
    ensures Depth("input, ") == 0 && Depth("output, ") == 0
  {
    BraceFreeDepth("extern \"C\" void ");
    BraceFreeDepth(EntryName);
    BraceFreeDepth(" (size_t nip, ");
    BraceFreeDepth("BareVector<Dev<double>> ");
    BraceFreeDepth("input, ");
    BraceFreeDepth("output, ");
  }

  lemma EntryLiterals2()
    ensures Depth("  ApplyIPFunctionKernel") == 0 && Depth("<<<256,256>>> ") == 0
    ensures Depth("(nip, ") == 0 && Depth("(double*)input.Data(), ") == 0
    ensures Depth("dist_input, ") == 0 && Depth("(double*)output.Data(), ") == 0
    ensures Depth("dist_output); ") == 0
  {
    BraceFreeDepth("  ApplyIPFunctionKernel");
    BraceFreeDepth("<<<256,256>>> ");
    BraceFreeDepth("(nip, ");
    BraceFreeDepth("(double*)input.Data(), ");
    BraceFreeDepth("dist_input, ");
    BraceFreeDepth("(double*)output.Data(), ");
    BraceFreeDepth("dist_output); ");
  }

  lemma EntrySignatureOpens()
    ensures Depth(EntrySignature) == 1
  {
    EntryLiterals1();
    SignatureLiterals();
    OpenBrace();
    var ps := [
      "extern \"C\" void ", EntryName, " (size_t nip, ", "BareVector<Dev<double>> ", "input, ",
      "size_t dist_input,\n", "                      ", "BareVector<Dev<double>> ", "output, ",
      "size_t dist_output) ", "{\n" ];
    var k := 0;
    while k < |ps|
      invariant k <= |ps|
      invariant Depth(Concat(ps[..k])) == if k == 11 then 1 else 0
    {
      ConcatStep(ps, k);
      k := k + 1;
    }
    assert ps[..k] == ps;
  }

  lemma EntryLaunchCloses()
    ensures Depth(EntryLaunch) == -1
  {
    EntryLiterals2();
    CloseBrace();
    var ps := [
      "  ApplyIPFunctionKernel", "<<<256,256>>> ", "(nip, ", "(double*)input.Data(), ",
      "dist_input, ", "(double*)output.Data(), ", "dist_output); ", "} \n" ];
    var k := 0;
    while k < |ps|
      invariant k <= |ps|
      invariant Depth(Concat(ps[..k])) == if k == 8 then -1 else 0
    {
      ConcatStep(ps, k);
      k := k + 1;
    }
    assert ps[..k] == ps;
  }

  /** The entry function opens and closes its own body. */
  lemma EntryBalanced()
    ensures Depth(EntryFunction) == 0
  {
    EntrySignatureOpens();
    EntryLaunchCloses();
    DepthAppend(EntrySignature, EntryLaunch);
  }

  /** When every compiled body and every variable name is balanced, so is
      the generated translation unit: the kernel function stays open across
      all blocks and is closed once, after the last one. */
  lemma SourceBalanced(proxies: seq<TrialProxy>, cfs: seq<CoefficientFunction>, varCode: VarNaming)
    requires forall k :: 0 <= k < |cfs| ==> Depth(cfs[k].body) == 0
    requires VarCodeBalanced(varCode)
    ensures Depth(KernelHeader + Blocks(cfs, proxies, varCode)) == 1
    ensures Depth(Source(proxies, cfs, varCode)) == 0
  {
    var blocks := Blocks(cfs, proxies, varCode);
    HeaderOpens();
    BlocksBalanced(cfs, proxies, varCode);
    CloseBrace();
    EntryBalanced();
    DepthAppend(KernelHeader, blocks);
    DepthAppend(KernelHeader + blocks, KernelClose);
    DepthAppend(KernelHeader + blocks + KernelClose, EntryFunction);
  }
}
