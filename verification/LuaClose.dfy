/** Closing an expression: every jump of its lists ends with the value in the target register. */
module LuaClose {
  import opened Basics
  import opened LuaMachine
  import opened LuaGen
  import opened LuaRuns
  import opened LuaSteps
  import opened LuaSem

  /** Jumps of `xs` whose tests give no value find a load of `b` at `at`. */
  ghost predicate LoadsFor(c: seq<Instr>, xs: seq<nat>, reg: nat, b: bool, at: int) {
    forall p :: p in xs && p < |c| ==>
      (p > 0 && c[p - 1].TestSet?) || (p < at < |c| && c[at] == LoadBool(reg, b, !b) &&
                                       at + (if b then 1 else 2) == |c| && Open(c, at))
  }

  /** Patching one list: its jumps reach the end with their value in `reg`. */
  lemma {:induction false} PatchDelivers(c: seq<Instr>, xs: seq<nat>, reg: nat, b: bool, at: int, w: World, regs: Regs)
    requires Paired(c) && Pending(c, xs) && LoadsFor(c, xs, reg, b, at) && Exec(c, w, 0, regs) != Stuck
    ensures var x, y := Exec(c, w, 0, regs), Exec(Patch(c, xs, |c|, reg, at), w, 0, regs);
      if x.Leave? && x.p in xs then
        y.Fall? && Keeps(y.regs, x.regs, reg) && Get(y.regs, reg) == JumpValue(c, x.p, x.regs, b)
      else y == x
  {
    var c', x := Patch(c, xs, |c|, reg, at), Exec(c, w, 0, regs);
    assert Ahead(c, xs, |c|, at);
    ExecPatched(c, xs, |c|, reg, at, w, 0, regs);
    if x.Leave? && x.p in xs {
      assert Pends(c, x.p);
      if !(x.p > 0 && c[x.p - 1].TestSet?) {
        LoadRunsOut(c, xs, reg, b, at, w, x.regs);
      }
    }
  }

  /** The load at the end of the code is carried out and ends the run. */
  lemma {:induction false} LoadRunsOut(c: seq<Instr>, xs: seq<nat>, reg: nat, b: bool, at: nat, w: World, regs: Regs)
    requires Paired(c) && Pending(c, xs) && at < |c| && c[at] == LoadBool(reg, b, !b) &&
             at + (if b then 1 else 2) == |c|
    ensures Exec(Patch(c, xs, |c|, reg, at), w, at, regs) == Fall(regs[reg := Bool(b)])
  {
    var c' := Patch(c, xs, |c|, reg, at);
    assert c'[at] == PatchedAt(c, xs, |c|, reg, at, at);
    assert at in xs ==> Pends(c, at);
    assert c'[at] == c[at];
    assert Exec(c', w, |c|, regs[reg := Bool(b)]) == Fall(regs[reg := Bool(b)]);
  }

  /** Patching one list leaves the other as it was. */
  lemma {:induction false} PatchLeavesOther(c: seq<Instr>, xs: seq<nat>, ys: seq<nat>, reg: nat, at: int)
    requires Paired(c) && Pending(c, xs) && Pending(c, ys) && forall p :: p in ys ==> p !in xs
    ensures var c' := Patch(c, xs, |c|, reg, at);
      Paired(c') && Pending(c', ys) && forall p :: p in ys && p > 0 ==>
        c'[p - 1].TestSet? == c[p - 1].TestSet? && (IsTest(c[p - 1]) ==> c'[p - 1] == c[p - 1])
  {
    var c' := Patch(c, xs, |c|, reg, at);
    PatchKeepsPaired(c, xs, |c|, reg, at);
    forall p | p in ys
      ensures Pends(c', p)
      ensures p > 0 ==> c'[p - 1].TestSet? == c[p - 1].TestSet? && (IsTest(c[p - 1]) ==> c'[p - 1] == c[p - 1])
    {
      assert Pends(c, p);
      assert c'[p] == PatchedAt(c, xs, |c|, reg, at, p);
      if p > 0 {
        assert c'[p - 1] == PatchedAt(c, xs, |c|, reg, at, p - 1);
        assert p - 1 in xs ==> Pends(c, p - 1);
      }
    }
  }

  /** The code after both lists of an expression have been patched to its end. */
  function Closed(c: seq<Instr>, f: seq<nat>, t: seq<nat>, reg: nat, pf: int, pt: int): seq<Instr> {
    Patch(Patch(c, f, |c|, reg, pf), t, |c|, reg, pt)
  }

  lemma {:induction false} ClosedDelivers(c: seq<Instr>, f: seq<nat>, t: seq<nat>, reg: nat, pf: int, pt: int, w: World,
                                          regs: Regs)
    requires Paired(c) && Pending(c, f) && Pending(c, t) && forall p :: p in t ==> p !in f
    requires LoadsFor(c, f, reg, false, pf) && LoadsFor(c, t, reg, true, pt) && Exec(c, w, 0, regs) != Stuck
    ensures var x, y := Exec(c, w, 0, regs), Exec(Closed(c, f, t, reg, pf, pt), w, 0, regs);
      if x.Leave? && (x.p in f || x.p in t) then
        y.Fall? && Keeps(y.regs, x.regs, reg) && Get(y.regs, reg) == JumpValue(c, x.p, x.regs, x.p in t)
      else y == x
  {
    var c1 := Patch(c, f, |c|, reg, pf);
    PatchDelivers(c, f, reg, false, pf, w, regs);
    PatchLeavesOther(c, f, t, reg, pf);
    forall p | p in t && p < |c| && !(p > 0 && c1[p - 1].TestSet?)
      ensures p < pt < |c1| && c1[pt] == LoadBool(reg, true, false) && pt + 1 == |c1| && Open(c1, pt)
    {
      PatchKeepsPaired(c, f, |c|, reg, pf);
      assert c1[pt] == PatchedAt(c, f, |c|, reg, pf, pt);
      assert forall q :: q in f ==> Pends(c, q);
    }
    PatchDelivers(c1, t, reg, true, pt, w, regs);
  }

  // ----- CloseJumps -----

  /** What both ends of `exp2reg` start from: the main value is in `g0.free`, or the expression is a pending test. */
  ghost predicate Ready(g0: Gen, g: Gen, e: Exp) {
    State(g0, g, e) && (e.k == VNonReloc(g0.free) || e.k.VJmp?)
  }

  /** The true list, the pending test included. */
  function TrueList(e: Exp): seq<nat> {
    if e.k.VJmp? then e.t + [e.k.pc] else e.t
  }

  /** The code before the lists are patched: nothing, or the two loads behind a jump around them. */
  function Padded(g: Gen, e: Exp, reg: nat): seq<Instr> {
    (if e.k.VJmp? then g.code else g.code + [Goto(PENDING)]) + [LoadBool(reg, false, true), LoadBool(reg, true, false)]
  }

  lemma {:induction false} NothingHere(g: Gen)
    requires g.here == []
    ensures Discharge(g) == g
  {
    forall j | 0 <= j < |g.code| ensures Discharge(g).code[j] == g.code[j] {
      DischargedAt(g, j);
    }
    assert Discharge(g).code == g.code;
  }

  /** The two loads, emitted where nothing jumps to "here". */
  lemma {:induction false} EmitsLoads(g: Gen, reg: nat)
    requires g.here == []
    ensures Emit(Label(g), LoadBool(reg, false, true)).code == g.code + [LoadBool(reg, false, true)]
    ensures Emit(Label(Emit(Label(g), LoadBool(reg, false, true))), LoadBool(reg, true, false)) ==
      g.(code := g.code + [LoadBool(reg, false, true), LoadBool(reg, true, false)], lastTarget := |g.code| + 1)
  {
    var g2 := Emit(Label(g), LoadBool(reg, false, true));
    NothingHere(Label(g));
    NothingHere(Label(g2));
    assert g2.code + [LoadBool(reg, true, false)] == g.code + [LoadBool(reg, false, true), LoadBool(reg, true, false)];
  }

  /** The padded code: runs at the end of `g` go around the loads, or load false. */
  lemma {:induction false} PaddedRuns(g: Gen, e: Exp, reg: nat, w: World, regs: Regs)
    requires WellFormed(g) && (e.k.VJmp? ==> g.here == []) && Exec(g.code, w, 0, regs) != Stuck
    ensures var x := Exec(g.code, w, 0, regs);
      Exec(Padded(g, e, reg), w, 0, regs) ==
        if !x.Fall? then x else if e.k.VJmp? then Fall(x.regs[reg := Bool(false)]) else Leave(|g.code|, x.regs)
    ensures Paired(Padded(g, e, reg))
  {
    var c, d := g.code, Padded(g, e, reg)[|g.code|..];
    assert Padded(g, e, reg) == c + d;
    var p := c + d;
    forall j | 0 <= j < |p| && IsTest(p[j]) ensures j + 1 < |p| && p[j + 1].Goto? {
      assert j < |c| && IsTest(c[j]);
    }
    ExecExtends(c, d, w, 0, regs);
    if Exec(c, w, 0, regs).Fall? {
      var r, n := Exec(c, w, 0, regs).regs, |c|;
      if e.k.VJmp? {
        assert p[n] == LoadBool(reg, false, true) && |p| == n + 2;
        assert Exec(p, w, n + 2, r[reg := Bool(false)]) == Fall(r[reg := Bool(false)]);
      } else {
        assert p[n] == Goto(PENDING);
      }
    }
  }

  /** An instruction that is neither a closed jump nor the test of one stays. */
  lemma {:induction false} ClosedAt(c: seq<Instr>, f: seq<nat>, t: seq<nat>, reg: nat, pf: int, pt: int, j: nat)
    requires Paired(c) && Pending(c, f) && Pending(c, t) && j < |c| && forall p :: p in t ==> p !in f
    ensures |Closed(c, f, t, reg, pf, pt)| == |c|
    ensures var i := Closed(c, f, t, reg, pf, pt)[j];
      && (j !in f && j !in t && j + 1 !in f && j + 1 !in t ==> i == c[j])
      && (j !in f && j !in t && !c[j].TestSet? ==> i == c[j])
      && (j in f || j in t ==>
            i == Goto(if j > 0 && c[j - 1].TestSet? then |c| else if j in f then pf else pt))
      && (IsTest(i) == IsTest(c[j])) && (i.LoadBool? ==> i == c[j]) && (i.Goto? ==> c[j].Goto?) &&
         (i.Jmp? ==> c[j].Jmp?)
  {
    var c1 := Patch(c, f, |c|, reg, pf);
    PatchLeavesOther(c, f, t, reg, pf);
    assert c1[j] == PatchedAt(c, f, |c|, reg, pf, j);
    assert Closed(c, f, t, reg, pf, pt)[j] == PatchedAt(c1, t, |c|, reg, pt, j);
    assert j in f || j in t ==> Pends(c, j);
  }

  /** What makes patching both lists of an expression a forward step. */
  ghost predicate Closable(c: seq<Instr>, last: nat, here: seq<nat>, f: seq<nat>, t: seq<nat>, pf: int, pt: int) {
    && Paired(c) && last <= |c| && Pending(c, f) && Pending(c, t)
    && (forall p :: p in t ==> p !in f && p !in here) && (forall p :: p in f ==> p !in here) && Pending(c, here)
    && (forall j :: 0 <= j < |c| ==> Reaches(c[j], j, |c|))
    && (forall p :: p in f && !(p > 0 && c[p - 1].TestSet?) ==> p < pf <= |c|)
    && (forall p :: p in t && !(p > 0 && c[p - 1].TestSet?) ==> p < pt <= |c|)
  }

  lemma {:induction false} ClosedSurvives(c: seq<Instr>, f: seq<nat>, t: seq<nat>, reg: nat, pf: int, pt: int)
    requires Paired(c) && Pending(c, f) && Pending(c, t) && forall p :: p in t ==> p !in f
    ensures |Closed(c, f, t, reg, pf, pt)| == |c|
    ensures forall p: nat :: Pends(c, p) && p !in f && p !in t ==>
      var c' := Closed(c, f, t, reg, pf, pt);
      Pends(c', p) && (p > 0 ==> IsTest(c'[p - 1]) == IsTest(c[p - 1]) && (IsTest(c[p - 1]) ==> c'[p - 1] == c[p - 1]))
  {
    var c' := Closed(c, f, t, reg, pf, pt);
    forall p: nat | Pends(c, p) && p !in f && p !in t
      ensures Pends(c', p)
      ensures p > 0 ==> IsTest(c'[p - 1]) == IsTest(c[p - 1]) && (IsTest(c[p - 1]) ==> c'[p - 1] == c[p - 1])
    {
      ClosedAt(c, f, t, reg, pf, pt, p);
      if p > 0 {
        ClosedAt(c, f, t, reg, pf, pt, p - 1);
        assert p - 1 in f || p - 1 in t ==> Pends(c, p - 1);
      }
    }
  }

  lemma {:induction false} ClosedReaches(c: seq<Instr>, last: nat, here: seq<nat>, f: seq<nat>, t: seq<nat>, reg: nat,
                                         pf: int, pt: int)
    requires Closable(c, last, here, f, t, pf, pt)
    ensures var c' := Closed(c, f, t, reg, pf, pt);
      Paired(c') && forall j :: 0 <= j < |c'| ==> Reaches(c'[j], j, |c|)
  {
    var c' := Closed(c, f, t, reg, pf, pt);
    forall j | 0 <= j < |c'|
      ensures !c'[j].Jmp? && Reaches(c'[j], j, |c|) && (IsTest(c'[j]) ==> j + 1 < |c'| && c'[j + 1].Goto?)
    {
      ClosedAt(c, f, t, reg, pf, pt, j);
      assert Reaches(c[j], j, |c|);
      if IsTest(c'[j]) {
        assert IsTest(c[j]) && j + 1 < |c|;
        ClosedAt(c, f, t, reg, pf, pt, j + 1);
      }
      if j in f || j in t {
        assert Pends(c, j);
      }
    }
  }

  lemma {:induction false} ClosedWellFormed(g: Gen, f: seq<nat>, t: seq<nat>, reg: nat, pf: int, pt: int)
    requires Closable(g.code, g.lastTarget, g.here, f, t, pf, pt) && g.nact <= g.free
    ensures var g' := g.(code := Closed(g.code, f, t, reg, pf, pt), lastTarget := |g.code|);
      && WellFormed(g')
      && (forall p: nat :: Pends(g.code, p) && p !in g.here && p !in f && p !in t ==> Survives(g, g', p))
  {
    var c, c' := g.code, Closed(g.code, f, t, reg, pf, pt);
    ClosedReaches(c, g.lastTarget, g.here, f, t, reg, pf, pt);
    ClosedSurvives(c, f, t, reg, pf, pt);
    forall p | p in g.here ensures Pends(c', p) && (p > 0 && c'[p - 1].TestSet? ==> c'[p - 1].dest == NO_REG) {
      assert Pends(c, p);
    }
  }

  // ----- CloseJumps keeps state and meaning -----

  /** The result of closing, with the register reserved. */
  function CloseAt(g: Gen, e: Exp, reg: nat): Gen {
    CloseJumps(g.(free := reg + 1), e, reg)
  }

  lemma {:induction false} TrueListOk(g0: Gen, g: Gen, e: Exp)
    requires Ready(g0, g, e)
    ensures Pending(g.code, TrueList(e)) && Pending(g.code, e.f) && WellFormed(g) && Grown(g0, g)
    ensures forall p :: p in TrueList(e) ==> p >= |g0.code| && p !in e.f && p !in g.here
    ensures e.k.VJmp? ==> g.here == []
  {
    if e.k.VJmp? {
      assert Pends(g.code, e.k.pc);
    }
  }

  lemma {:induction false} WithoutLoads(g: Gen, e: Exp)
    requires Pending(g.code, TrueList(e)) && Pending(g.code, e.f)
    requires !NeedValue(g.code, TrueList(e)) && !NeedValue(g.code, e.f)
    ensures forall p :: p in TrueList(e) || p in e.f ==> p > 0 && g.code[p - 1].TestSet?
  {
    forall p | p in TrueList(e) || p in e.f ensures p > 0 && g.code[p - 1].TestSet? {
      assert Pends(g.code, p);
    }
  }

  lemma {:induction false} PaddedAt(g: Gen, e: Exp, reg: nat, j: nat)
    requires j < |Padded(g, e, reg)|
    ensures var c, n := Padded(g, e, reg), |g.code|;
      && |c| == (if e.k.VJmp? then n + 2 else n + 3)
      && c[j] == if j < n then g.code[j]
                 else if j == |c| - 2 then LoadBool(reg, false, true)
                 else if j == |c| - 1 then LoadBool(reg, true, false)
                 else Goto(PENDING)
  {
  }

  /** The jumps waiting when the loads are appended. */
  function PaddedHere(g: Gen, e: Exp): seq<nat> {
    if e.k.VJmp? then [] else [|g.code|] + g.here
  }

  lemma {:induction false} PaddedKeeps(g: Gen, e: Exp, reg: nat)
    requires WellFormed(g)
    ensures forall p: nat :: Pends(g.code, p) ==>
      Pends(Padded(g, e, reg), p) && (p > 0 ==> Padded(g, e, reg)[p - 1] == g.code[p - 1])
  {
    forall p: nat | Pends(g.code, p)
      ensures Pends(Padded(g, e, reg), p) && (p > 0 ==> Padded(g, e, reg)[p - 1] == g.code[p - 1])
    {
      PaddedAt(g, e, reg, p);
      if p > 0 {
        PaddedAt(g, e, reg, p - 1);
      }
    }
  }

  lemma {:induction false} PaddedWellFormed(g: Gen, e: Exp, reg: nat)
    requires WellFormed(g)
    ensures var c := Padded(g, e, reg);
      Paired(c) && forall j :: 0 <= j < |c| ==> Reaches(c[j], j, |c|)
  {
    var c, n := Padded(g, e, reg), |g.code|;
    forall j | 0 <= j < |c| ensures Reaches(c[j], j, |c|) && !c[j].Jmp? {
      PaddedAt(g, e, reg, j);
      if j < n {
        assert Reaches(g.code[j], j, g.lastTarget);
      }
    }
    forall j | 0 <= j < |c| && IsTest(c[j]) ensures j + 1 < |c| && c[j + 1].Goto? {
      PaddedAt(g, e, reg, j);
      assert IsTest(g.code[j]);
      PaddedAt(g, e, reg, j + 1);
    }
  }

  lemma {:induction false} PaddedLoads(g: Gen, e: Exp, reg: nat, xs: seq<nat>, b: bool)
    requires WellFormed(g) && Pending(g.code, xs) && (e.k.VJmp? ==> g.code != [] && g.code[|g.code| - 1].Goto?)
    ensures var c := Padded(g, e, reg); LoadsFor(c, xs, reg, b, if b then |c| - 1 else |c| - 2)
  {
    var c := Padded(g, e, reg);
    PaddedAt(g, e, reg, |c| - 1);
    PaddedAt(g, e, reg, |c| - 2);
    assert |c| >= 3;
    PaddedAt(g, e, reg, |c| - 3);
    assert !IsTest(c[|c| - 3]) && !IsTest(c[|c| - 2]);
    forall p | p in xs ensures p < |c| - 2 {
      assert Pends(g.code, p);
    }
  }

  lemma {:induction false} PaddedClosable(g0: Gen, g: Gen, e: Exp, reg: nat)
    requires Ready(g0, g, e)
    ensures var c := Padded(g, e, reg);
      Closable(c, g.lastTarget, PaddedHere(g, e), e.f, TrueList(e), |c| - 2, |c| - 1)
  {
    TrueListOk(g0, g, e);
    PaddedKeeps(g, e, reg);
    PaddedWellFormed(g, e, reg);
    var c, n, t, here := Padded(g, e, reg), |g.code|, TrueList(e), PaddedHere(g, e);
    if !e.k.VJmp? {
      PaddedAt(g, e, reg, n);
      if n > 0 {
        PaddedAt(g, e, reg, n - 1);
        assert !IsTest(g.code[n - 1]);
      }
    }
    forall p | p in t || p in e.f || p in g.here ensures Pends(g.code, p) {
    }
  }

  /** The generator with the loads appended and both lists patched. */
  function PaddedClosed(g: Gen, e: Exp, reg: nat): Gen {
    var c := Padded(g, e, reg);
    g.(free := reg + 1, here := PaddedHere(g, e), lastTarget := |c|,
       code := Closed(c, e.f, TrueList(e), reg, |c| - 2, |c| - 1))
  }

  lemma {:induction false} CloseStatePadded(g0: Gen, g: Gen, e: Exp)
    requires Ready(g0, g, e)
    ensures WellFormed(PaddedClosed(g, e, g0.free)) && Grown(g0, PaddedClosed(g, e, g0.free))
  {
    TrueListOk(g0, g, e);
    var reg := g0.free;
    var c := Padded(g, e, reg);
    PaddedClosable(g0, g, e, reg);
    PaddedKeeps(g, e, reg);
    var k := g.(free := reg + 1, code := c, here := PaddedHere(g, e));
    ClosedWellFormed(k, e.f, TrueList(e), reg, |c| - 2, |c| - 1);
    CloseGrown(g0, g, e, k, PaddedClosed(g, e, reg));
  }

  lemma {:induction false} CloseStateBare(g0: Gen, g: Gen, e: Exp)
    requires Ready(g0, g, e) && !NeedValue(g.code, TrueList(e)) && !NeedValue(g.code, e.f)
    ensures WellFormed(BareClosed(g, e, g0.free)) && Grown(g0, BareClosed(g, e, g0.free))
  {
    TrueListOk(g0, g, e);
    var reg := g0.free;
    WithoutLoads(g, e);
    forall j | 0 <= j < |g.code| ensures Reaches(g.code[j], j, |g.code|) {
      assert Reaches(g.code[j], j, g.lastTarget);
    }
    var h := g.(free := reg + 1);
    ClosedWellFormed(h, e.f, TrueList(e), reg, PENDING, PENDING);
    CloseGrown(g0, g, e, h, BareClosed(g, e, reg));
  }

  lemma {:induction false} CloseState(g0: Gen, g: Gen, e: Exp)
    requires Ready(g0, g, e)
    ensures State(g0, CloseAt(g, e, g0.free), Simple(VNonReloc(g0.free)))
    ensures CloseAt(g, e, g0.free).free == g0.free + 1
  {
    TrueListOk(g0, g, e);
    CloseForms(g, e, g0.free);
    if TrueList(e) == [] && e.f == [] {
      assert Grown(g0, g.(free := g0.free + 1));
    } else if NeedValue(g.code, TrueList(e)) || NeedValue(g.code, e.f) {
      CloseStatePadded(g0, g, e);
    } else {
      CloseStateBare(g0, g, e);
    }
  }

  lemma {:induction false} CloseGrown(g0: Gen, g: Gen, e: Exp, k: Gen, g': Gen)
    requires Ready(g0, g, e) && g'.here == k.here && g'.nact == g.nact && g'.ks == g.ks && |g.code| <= |g'.code|
    requires forall p :: p in k.here ==> p in g.here || p == |g.code|
    requires forall p: nat :: Pends(g.code, p) ==> Pends(k.code, p) && (p > 0 ==> k.code[p - 1] == g.code[p - 1])
    requires forall p: nat :: Pends(k.code, p) && p !in k.here && p !in e.f && p !in TrueList(e) ==> Survives(k, g', p)
    ensures Grown(g0, g')
  {
    TrueListOk(g0, g, e);
    forall p: nat | Pends(g0.code, p) && p !in g0.here ensures Survives(g0, g', p) {
      assert Survives(g0, g, p);
      assert Pends(k.code, p) && p < |g0.code|;
      assert Survives(k, g', p);
    }
  }

  /** What closing makes of the end of a run. */
  ghost predicate Delivered(g: Gen, e: Exp, reg: nat, x: Exit, y: Exit) {
    if x.Leave? && (x.p in e.f || x.p in TrueList(e)) then
      y.Fall? && Keeps(y.regs, x.regs, reg) && Get(y.regs, reg) == JumpValue(g.code, x.p, x.regs, x.p in TrueList(e))
    else if x.Fall? then
      y == Fall(if e.k.VJmp? then x.regs[reg := Bool(false)] else x.regs)
    else y == x
  }

  /** What patching the lists of `e` in the code `c` makes of the end `x` of a run. */
  ghost predicate Patched(c: seq<Instr>, e: Exp, reg: nat, x: Exit, y: Exit) {
    if x.Leave? && (x.p in e.f || x.p in TrueList(e)) then
      y.Fall? && Keeps(y.regs, x.regs, reg) && Get(y.regs, reg) == JumpValue(c, x.p, x.regs, x.p in TrueList(e))
    else y == x
  }

  lemma {:induction false} DeliverPadded(g0: Gen, g: Gen, e: Exp, reg: nat, x: Exit, y: Exit)
    requires Ready(g0, g, e) && (x.Leave? ==> x.p < |g.code|)
    requires Patched(Padded(g, e, reg), e, reg,
      if !x.Fall? then x else if e.k.VJmp? then Fall(x.regs[reg := Bool(false)]) else Leave(|g.code|, x.regs), y)
    ensures Delivered(g, e, reg, Arrived(x, g.here), Arrived(y, PaddedHere(g, e)))
  {
    TrueListOk(g0, g, e);
    PaddedKeeps(g, e, reg);
    assert !(|g.code| in e.f) && !(|g.code| in TrueList(e)) by {
      assert forall p :: p in e.f || p in TrueList(e) ==> Pends(g.code, p);
    }
    if x.Leave? && (x.p in e.f || x.p in TrueList(e)) {
      assert Pends(g.code, x.p);
    }
  }

  lemma {:induction false} PaddedDelivers(g0: Gen, g: Gen, e: Exp, w: World, regs: Regs)
    requires Ready(g0, g, e) && Exec(g.code, w, 0, regs) != Stuck
    ensures var c, x := Padded(g, e, g0.free), Exec(g.code, w, 0, regs);
      Patched(c, e, g0.free,
        if !x.Fall? then x else if e.k.VJmp? then Fall(x.regs[g0.free := Bool(false)]) else Leave(|g.code|, x.regs),
        Exec(Closed(c, e.f, TrueList(e), g0.free, |c| - 2, |c| - 1), w, 0, regs))
  {
    hide Exec, Padded, Closed, TrueList, Paired, LoadsFor, JumpValue;
    TrueListOk(g0, g, e);
    var reg := g0.free;
    var c := Padded(g, e, reg);
    PaddedLoads(g, e, reg, e.f, false);
    PaddedLoads(g, e, reg, TrueList(e), true);
    PaddedRuns(g, e, reg, w, regs);
    PaddedClosable(g0, g, e, reg);
    ClosedDelivers(c, e.f, TrueList(e), reg, |c| - 2, |c| - 1, w, regs);
  }

  lemma {:induction false} OutPadded(g: Gen, e: Exp, reg: nat, w: World, regs: Regs)
    ensures var c := Padded(g, e, reg);
      Out(PaddedClosed(g, e, reg), w, regs) ==
        Arrived(Exec(Closed(c, e.f, TrueList(e), reg, |c| - 2, |c| - 1), w, 0, regs), PaddedHere(g, e))
  {
  }

  lemma {:induction false} CloseRunsPadded(g0: Gen, g: Gen, e: Exp, w: World, regs: Regs)
    requires Ready(g0, g, e) && Out(g, w, regs) != Stuck
    ensures Delivered(g, e, g0.free, Out(g, w, regs), Out(PaddedClosed(g, e, g0.free), w, regs))
  {
    var c := Padded(g, e, g0.free);
    PaddedDelivers(g0, g, e, w, regs);
    LeavesThroughPending(g.code, w, 0, regs);
    OutPadded(g, e, g0.free, w, regs);
    DeliverPadded(g0, g, e, g0.free, Exec(g.code, w, 0, regs),
                  Exec(Closed(c, e.f, TrueList(e), g0.free, |c| - 2, |c| - 1), w, 0, regs));
  }

  /** The generator with both lists patched, when every jump brings its value. */
  function BareClosed(g: Gen, e: Exp, reg: nat): Gen {
    g.(free := reg + 1, lastTarget := |g.code|, code := Closed(g.code, e.f, TrueList(e), reg, PENDING, PENDING))
  }

  lemma {:induction false} DeliverBare(g0: Gen, g: Gen, e: Exp, reg: nat, x: Exit, y: Exit)
    requires Ready(g0, g, e) && !e.k.VJmp?
    requires Patched(g.code, e, reg, x, y)
    ensures Delivered(g, e, reg, Arrived(x, g.here), Arrived(y, g.here))
  {
    TrueListOk(g0, g, e);
  }

  /** A pending test has no value of its own. */
  lemma {:induction false} PendingTestNeedsValue(c: seq<Instr>, e: Exp)
    requires e.k.VJmp? && 0 < e.k.pc <= |c| && !c[e.k.pc - 1].TestSet?
    ensures NeedValue(c, TrueList(e))
  {
    var t := TrueList(e);
    assert t[|t| - 1] == e.k.pc;
    assert e.k.pc in t;
  }

  lemma {:induction false} CloseRunsBare(g0: Gen, g: Gen, e: Exp, w: World, regs: Regs)
    requires Ready(g0, g, e) && Out(g, w, regs) != Stuck
    requires !NeedValue(g.code, TrueList(e)) && !NeedValue(g.code, e.f)
    ensures Delivered(g, e, g0.free, Out(g, w, regs), Out(BareClosed(g, e, g0.free), w, regs))
  {
    TrueListOk(g0, g, e);
    var reg := g0.free;
    WithoutLoads(g, e);
    if e.k.VJmp? {
      PendingTestNeedsValue(g.code, e);
      assert false;
    }
    ClosedDelivers(g.code, e.f, TrueList(e), reg, PENDING, PENDING, w, regs);
    DeliverBare(g0, g, e, reg, Exec(g.code, w, 0, regs),
                Exec(Closed(g.code, e.f, TrueList(e), reg, PENDING, PENDING), w, 0, regs));
  }

  lemma {:induction false} CloseWithLoads(g: Gen, e: Exp, reg: nat)
    requires (e.k.VJmp? ==> g.here == []) && (TrueList(e) != [] || e.f != [])
    requires NeedValue(g.code, TrueList(e)) || NeedValue(g.code, e.f)
    ensures CloseAt(g, e, reg) == PaddedClosed(g, e, reg)
  {
    hide NeedValue, Emit, Patch;
    var h := g.(free := reg + 1);
    EmitsLoads(if e.k.VJmp? then h else Jump(h).0, reg);
  }

  /** Closing takes one of three forms. */
  lemma {:induction false} CloseForms(g: Gen, e: Exp, reg: nat)
    requires e.k.VJmp? ==> g.here == []
    ensures CloseAt(g, e, reg) ==
      if TrueList(e) == [] && e.f == [] then g.(free := reg + 1)
      else if NeedValue(g.code, TrueList(e)) || NeedValue(g.code, e.f) then PaddedClosed(g, e, reg)
      else BareClosed(g, e, reg)
  {
    if TrueList(e) == [] && e.f == [] {
    } else if NeedValue(g.code, TrueList(e)) || NeedValue(g.code, e.f) {
      CloseWithLoads(g, e, reg);
    }
  }

  /** Runs of the closed code: every run that ended with a value of `e` now falls through with it in the register. */
  lemma {:induction false} CloseRuns(g0: Gen, g: Gen, e: Exp, w: World, regs: Regs)
    requires Ready(g0, g, e) && Out(g, w, regs) != Stuck
    ensures Delivered(g, e, g0.free, Out(g, w, regs), Out(CloseAt(g, e, g0.free), w, regs))
  {
    CloseForms(g, e, g0.free);
    if TrueList(e) == [] && e.f == [] {
    } else if NeedValue(g.code, TrueList(e)) || NeedValue(g.code, e.f) {
      CloseRunsPadded(g0, g, e, w, regs);
    } else {
      CloseRunsBare(g0, g, e, w, regs);
    }
  }

  /** A value delivered into the register is the value of the expression. */
  lemma {:induction false} DeliveredIsGood(g: Gen, e: Exp, base: nat, r1: Regs, w: World, v: Option<Value>, x: Exit,
                                           y: Exit, g': Gen)
    requires Good(x, r1, g, e, w, v, base) && Delivered(g, e, base, x, y)
    requires e.k == VNonReloc(base) || (e.k.VJmp? && e.k.pc !in e.t && e.k.pc !in e.f && 0 < e.k.pc <= |g.code| &&
                                        g.code[e.k.pc - 1].Cmp?)
    requires forall p :: p in TrueList(e) ==> p !in e.f
    ensures Good(y, r1, g', Simple(VNonReloc(base)), w, v, base)
  {
  }

  /** Jumps of earlier code are not closed. */
  lemma {:induction false} OthersStay(g0: Gen, g: Gen, e: Exp, reg: nat, o: Exit, y: Exit)
    requires Ready(g0, g, e) && Delivered(g, e, reg, o, y) && !o.Fall? && (o.Leave? ==> o.p < |g0.code|)
    ensures y == o
  {
    TrueListOk(g0, g, e);
  }

  /** From what closing makes of the end of a run to the meaning of the closed expression. */
  lemma {:induction false} DeliveredMeans(g0: Gen, g: Gen, e: Exp, g': Gen, x: Expr, w: World, regs: Regs)
    requires Ready(g0, g, e) && Means(g0, g, e, x, w, regs)
    requires Out(g, w, regs) != Stuck ==> Delivered(g, e, g0.free, Out(g, w, regs), Out(g', w, regs))
    ensures Means(g0, g', Simple(VNonReloc(g0.free)), x, w, regs)
  {
    hide Exec, Eval, JumpValue, Delivered;
    var o := Out(g0, w, regs);
    if o != Stuck {
      TrueListOk(g0, g, e);
      if o.Fall? {
        DeliveredIsGood(g, e, g0.free, o.regs, w, Eval(x, o.regs, w.cmp), Out(g, w, regs), Out(g', w, regs), g');
      } else {
        LeavesThroughPending(g0.code, w, 0, regs);
        OthersStay(g0, g, e, g0.free, o, Out(g', w, regs));
      }
    }
  }

  lemma {:induction false} CloseMeans(g0: Gen, g: Gen, e: Exp, x: Expr, w: World, regs: Regs)
    requires Ready(g0, g, e) && Means(g0, g, e, x, w, regs)
    ensures Means(g0, CloseAt(g, e, g0.free), Simple(VNonReloc(g0.free)), x, w, regs)
  {
    if Out(g, w, regs) != Stuck {
      CloseRuns(g0, g, e, w, regs);
    }
    DeliveredMeans(g0, g, e, CloseAt(g, e, g0.free), x, w, regs);
  }
}
