/** Compiled code means what the expression means. */
module LuaSem {
  import opened Basics
  import opened LuaMachine
  import opened LuaGen
  import opened LuaRuns
  import opened LuaSteps

  /** A relocatable expression is a NOT without destination at the end of the code: the code before it. */
  function Base(g: Gen, e: Exp): Gen {
    if e.k.VReloc? && g.code != [] then g.(code := g.code[..|g.code| - 1]) else g
  }

  /** The descriptor fits the code and the registers; `base` is the first register the expression may use. */
  ghost predicate KindOk(g: Gen, e: Exp, base: nat) {
    match e.k
    case VK(k) => k < |g.ks| && g.free == base
    case VLocal(r) => r < g.nact && g.free == base
    case VNonReloc(r) => (r < g.nact && g.free == base) || (r == base && g.free == base + 1)
    case VJmp(pc) =>
      && g.free == base && g.here == [] && 0 < pc == |g.code| - 1 && Pends(g.code, pc) && g.code[pc - 1].Cmp?
      && g.lastTarget < pc && pc !in e.t && pc !in e.f
    case VReloc(pc) => g.free == base && g.here == [] && pc == |g.code| - 1 && g.code[pc].NotOp?
    case _ => g.free == base
  }

  /** The lists hold waiting jumps, of the code after `start`, and share none. */
  ghost predicate ListsOk(g: Gen, e: Exp, start: nat) {
    && Pending(g.code, e.t) && Pending(g.code, e.f)
    && (forall p :: p in e.t ==> p >= start && p !in e.f && p !in g.here)
    && (forall p :: p in e.f ==> p >= start && p !in g.here)
    && (e.k.VJmp? ==> e.k.pc >= start)
  }

  /** `e` describes what was generated since `g0`. */
  ghost predicate State(g0: Gen, g: Gen, e: Exp) {
    && WellFormed(Base(g, e)) && Grown(g0, Base(g, e)) && g0.nact <= g0.free
    && KindOk(g, e, g0.free) && ListsOk(g, e, |g0.code|)
  }

  /** Registers below `base` are as they were. */
  ghost predicate Keeps(r: Regs, r1: Regs, base: nat) {
    forall i: nat :: i < base ==> Get(r, i) == Get(r1, i)
  }

  /** The value an expression has where control reaches the end of its code. */
  function MainValue(g: Gen, k: Kind, w: World, r: Regs): Value {
    match k
    case VNil => Nil
    case VTrue => Bool(true)
    case VFalse => Bool(false)
    case VK(i) => Operand(Con(i), w, r)
    case VKNum(v) => v
    case VLocal(i) => Get(r, i)
    case VNonReloc(i) => Get(r, i)
    case VJmp(_) => Bool(false)
    case VReloc(pc) => if pc < |g.code| && g.code[pc].NotOp? then Bool(!Truthy(Get(r, g.code[pc].b))) else Nil
  }

  /** The value an expression has where control leaves through jump `p`: the one its test looked at, or `b`. */
  function JumpValue(c: seq<Instr>, p: nat, r: Regs, b: bool): Value {
    if 0 < p <= |c| && c[p - 1].TestSet? then Get(r, c[p - 1].b) else Bool(b)
  }

  /** The end `o` of a run fits the value `v` of the expression, evaluated in `r1`. */
  ghost predicate Good(o: Exit, r1: Regs, g: Gen, e: Exp, w: World, v: Option<Value>, base: nat) {
    match v
    case None => o == Raise
    case Some(val) =>
      match o
      case Fall(r) => Keeps(r, r1, base) && MainValue(g, e.k, w, r) == val
      case Leave(p, r) =>
        && Keeps(r, r1, base)
        && (if e.k == VJmp(p) then val == Bool(true)
            else if p in e.t then Truthy(val) && JumpValue(g.code, p, r, true) == val
            else p in e.f && !Truthy(val) && JumpValue(g.code, p, r, false) == val)
      case _ => false
  }

  /** The meaning of `e`, generated since `g0`, is that of `x`: runs that reached the end of `g0` evaluate it, all
      others end as before. */
  ghost predicate Means(g0: Gen, g: Gen, e: Exp, x: Expr, w: World, regs: Regs) {
    match Out(g0, w, regs)
    case Stuck => true
    case Fall(r1) => Good(Out(Base(g, e), w, regs), r1, g, e, w, Eval(x, r1, w.cmp), g0.free)
    case o => Out(Base(g, e), w, regs) == o
  }

  lemma {:induction false} SurvivorsKeepValue(g: Gen, g': Gen, p: nat, r: Regs, b: bool)
    requires Survives(g, g', p)
    ensures JumpValue(g'.code, p, r, b) == JumpValue(g.code, p, r, b)
  {
  }

  /** Waiting jumps of `e` still wait after a step that grows the code. */
  lemma {:induction false} ListsSurvive(g: Gen, g': Gen, e: Exp, e': Exp, start: nat)
    requires ListsOk(g, e, start) && Grown(g, g') && e'.t == e.t && e'.f == e.f && !e'.k.VJmp?
    ensures ListsOk(g', e', start)
    ensures forall p :: p in e.t || p in e.f ==> Survives(g, g', p)
  {
    forall p | p in e.t || p in e.f ensures Survives(g, g', p) {
      assert Pends(g.code, p) && p !in g.here;
    }
  }

  // ----- putting the main value into a register -----

  /** The instruction that loads a main value, and the constant it may add first. */
  function Loader(g: Gen, e: Exp, reg: nat): Instr {
    match e.k
    case VNil => LoadNil(reg, 0)
    case VTrue => LoadBool(reg, true, false)
    case VFalse => LoadBool(reg, false, false)
    case VK(k) => LoadK(reg, k)
    case VKNum(v) => LoadK(reg, AddK(g, v).1)
    case VLocal(r) => Move(reg, r)
    case VNonReloc(r) => Move(reg, r)
    case VReloc(pc) => NotOp(reg, if pc < |g.code| && g.code[pc].NotOp? then g.code[pc].b else 0)
    case VJmp(_) => Move(reg, reg)
  }

  /** What `discharge2reg` emits, as one step behind the code before a relocatable NOT. */
  function Loaded(g: Gen, e: Exp, reg: nat): Gen {
    var b := Base(g, e);
    if e.k.VNil? then LoadNilAt(b, reg)
    else if e.k.VKNum? then Emit(AddK(b, e.k.v).0, Loader(g, e, reg))
    else Emit(b, Loader(g, e, reg))
  }

  predicate RelocOk(g: Gen, e: Exp) {
    e.k.VReloc? ==> g.here == [] && e.k.pc == |g.code| - 1 && g.code[e.k.pc].NotOp?
  }

  lemma {:induction false} DischargeIsLoad(g: Gen, e: Exp, reg: nat)
    requires WellFormed(Base(g, e)) && RelocOk(g, e) && !e.k.VJmp? && !e.k.VLocal?
    requires e.k.VNonReloc? ==> e.k.r != reg
    ensures Discharge2Reg(g, e, reg) == (Loaded(g, e, reg), e.(k := VNonReloc(reg)))
  {
    if e.k.VReloc? {
      var b, n := Base(g, e), |g.code| - 1;
      assert Discharge(b).code == b.code by {
        forall j | 0 <= j < n ensures Discharge(b).code[j] == b.code[j] {
          DischargedAt(b, j);
        }
      }
      assert g.code[n := Loader(g, e, reg)] == b.code + [Loader(g, e, reg)];
    }
  }

  lemma {:induction false} AddKState(g: Gen, v: Value, w: World, regs: Regs)
    requires WellFormed(g)
    ensures var (h, k) := AddK(g, v);
      WellFormed(h) && Grown(g, h) && Out(h, w, regs) == Out(g, w, regs) && k < |h.ks| && h.ks[k] == v
  {
  }

  /** The loader loads the main value. */
  lemma {:induction false} LoaderLoads(g: Gen, e: Exp, reg: nat, w: World, r: Regs)
    requires !e.k.VJmp? && !e.k.VNil? && RelocOk(g, e)
    requires e.k.VKNum? ==> AddK(g, e.k.v).0.ks <= w.ks
    ensures Plain(Loader(g, e, reg)) && Next([Loader(g, e, reg)], w, 0, r).regs == r[reg := MainValue(g, e.k, w, r)]
  {
  }

  /** Loading the main value: runs at the end now have it in `reg`. */
  lemma {:induction false} LoadRuns(g: Gen, e: Exp, reg: nat, w: World, regs: Regs)
    requires WellFormed(Base(g, e)) && RelocOk(g, e) && !e.k.VJmp?
    ensures var g', b := Loaded(g, e, reg), Base(g, e);
      && WellFormed(g') && Grown(b, g') && g'.free == g.free
      && (Out(b, w, regs) != Stuck && g'.ks <= w.ks ==>
           Out(g', w, regs) ==
             match Out(b, w, regs) case Fall(r) => Fall(r[reg := MainValue(g, e.k, w, r)]) case x => x)
  {
    var b := Base(g, e);
    if e.k.VNil? {
      EmitNil(b, reg, w, regs);
    } else {
      var b' := if e.k.VKNum? then AddK(b, e.k.v).0 else b;
      if e.k.VKNum? {
        AddKState(b, e.k.v, w, regs);
      }
      EmitPlain(b', Loader(g, e, reg), w, regs);
      GrownTrans(b, b', Emit(b', Loader(g, e, reg)));
      if b'.ks <= w.ks && Out(b, w, regs).Fall? {
        LoaderLoads(g, e, reg, w, Out(b, w, regs).regs);
      }
    }
  }

  /** The lists of an expression lie in the code before a relocatable NOT. */
  lemma {:induction false} ListsInBase(g: Gen, e: Exp, start: nat)
    requires ListsOk(g, e, start) && RelocOk(g, e)
    ensures ListsOk(Base(g, e), e, start)
    ensures forall p, r, b :: p in e.t || p in e.f ==> JumpValue(Base(g, e).code, p, r, b) == JumpValue(g.code, p, r, b)
  {
    forall p | p in e.t || p in e.f ensures Pends(Base(g, e).code, p) {
      assert Pends(g.code, p);
    }
  }

  /** A step behind the code of `e` that puts its main value into the register `base` keeps the meaning. */
  lemma {:induction false} LoadMeans(g0: Gen, g: Gen, e: Exp, g1: Gen, x: Expr, w: World, regs: Regs)
    requires State(g0, g, e) && !e.k.VJmp?
    requires Grown(Base(g, e), g1)
    requires Out(Base(g, e), w, regs) != Stuck ==>
      Out(g1, w, regs) ==
        match Out(Base(g, e), w, regs) case Fall(r) => Fall(r[g0.free := MainValue(g, e.k, w, r)]) case x => x
    requires Means(g0, g, e, x, w, regs)
    ensures Means(g0, g1, e.(k := VNonReloc(g0.free)), x, w, regs)
  {
    hide Exec, Eval;
    var b, e1 := Base(g, e), e.(k := VNonReloc(g0.free));
    ListsInBase(g, e, |g0.code|);
    ListsSurvive(b, g1, e, e1, |g0.code|);
    match Out(b, w, regs)
    case Leave(p, r) =>
      if p in e.t || p in e.f {
        assert Survives(b, g1, p);
        SurvivorsKeepValue(b, g1, p, r, true);
        SurvivorsKeepValue(b, g1, p, r, false);
      }
    case _ =>
  }

  /** What `discharge2reg` into the first free register does to runs. */
  lemma {:induction false} ToRegRuns(g0: Gen, g: Gen, e: Exp, g1: Gen, e1: Exp, w: World, regs: Regs)
    requires State(g0, g, e) && !e.k.VJmp? && !e.k.VLocal? && e.k != VNonReloc(g0.free)
    requires (g1, e1) == Discharge2Reg(g.(free := g0.free + 1), e, g0.free)
    ensures e1 == e.(k := VNonReloc(g0.free)) && g1.free == g0.free + 1 && g.ks <= g1.ks
    ensures WellFormed(g1) && Grown(Base(g, e), g1)
    ensures Out(Base(g, e), w, regs) != Stuck && g1.ks <= w.ks ==>
      Out(g1, w, regs) ==
        match Out(Base(g, e), w, regs) case Fall(r) => Fall(r[g0.free := MainValue(g, e.k, w, r)]) case x => x
  {
    hide Exec, Loaded;
    var h := g.(free := g0.free + 1);
    DischargeIsLoad(h, e, g0.free);
    LoadRuns(h, e, g0.free, w, regs);
    assert Base(h, e) == Base(g, e).(free := h.free);
    assert Grown(Base(g, e), Base(h, e));
    GrownTrans(Base(g, e), Base(h, e), g1);
    assert Out(Base(h, e), w, regs) == Out(Base(g, e), w, regs);
  }

  lemma {:induction false} LoadState(g0: Gen, g: Gen, e: Exp, g1: Gen)
    requires State(g0, g, e) && !e.k.VJmp? && WellFormed(g1) && Grown(Base(g, e), g1) && g1.free == g0.free + 1
    ensures State(g0, g1, e.(k := VNonReloc(g0.free)))
  {
    GrownTrans(g0, Base(g, e), g1);
    ListsInBase(g, e, |g0.code|);
    ListsSurvive(Base(g, e), g1, e, e.(k := VNonReloc(g0.free)), |g0.code|);
  }

  /** `discharge2reg` into the first free register keeps the meaning. */
  lemma {:induction false} ToReg(g0: Gen, g: Gen, e: Exp, x: Expr, w: World, regs: Regs)
    requires State(g0, g, e) && !e.k.VJmp? && !e.k.VLocal?
    ensures var (g1, e1) := Discharge2Reg(g.(free := g0.free + 1), e, g0.free);
      && State(g0, g1, e1) && e1 == e.(k := VNonReloc(g0.free)) && g1.free == g0.free + 1 && g.ks <= g1.ks
      && (g1.ks <= w.ks && Means(g0, g, e, x, w, regs) ==> Means(g0, g1, e1, x, w, regs))
  {
    var (g1, e1) := Discharge2Reg(g.(free := g0.free + 1), e, g0.free);
    if e.k == VNonReloc(g0.free) {
      assert g.(free := g0.free + 1) == g;
      assert (g1, e1) == (g, e);
    } else {
      ToRegRuns(g0, g, e, g1, e1, w, regs);
      LoadState(g0, g, e, g1);
      if g1.ks <= w.ks && Means(g0, g, e, x, w, regs) {
        LoadMeans(g0, g, e, g1, x, w, regs);
      }
    }
  }
}
