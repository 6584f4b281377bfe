/** Jumps on conditions, negation and comparison keep the meaning. */
module LuaConditions {
  import opened LuaMachine
  import opened LuaGen
  import opened LuaRuns
  import opened LuaSteps
  import opened LuaSem
  import opened LuaOperands

  /** Constants tested by their kind alone are true. */
  predicate TrueConstants(g: Gen, e: Exp) {
    && (e.k.VK? ==> e.k.k < |g.ks| && Truthy(g.ks[e.k.k]))
    && (e.k.VKNum? ==> Truthy(e.k.v))
  }

  // ----- jumping on the main value -----

  /** The end of a run after a jump on the main value: `j` is taken when the value is `cond`. */
  ghost predicate Branches(h: Gen, j: nat, cond: bool, v: Value, base: nat, r: Regs, o: Exit) {
    match o
    case Fall(r') => Truthy(v) != cond && Keeps(r', r, base)
    case Leave(p, r') => p == j && Truthy(v) == cond && Keeps(r', r, base) && JumpValue(h.code, j, r', cond) == v
    case _ => false
  }

  /** A test on a register with its jump branches on the register's value, or on the value negated. */
  lemma {:induction false} TestBranches(g: Gen, r: nat, negated: bool, cond: bool, base: nat, w: World, q: Regs,
                                        regs: Regs)
    requires WellFormed(g) && Out(g, w, regs) == Fall(q)
    ensures var i := if negated then Test(r, !cond) else TestSet(NO_REG, r, cond);
      var v := if negated then Bool(!Truthy(Get(q, r))) else Get(q, r);
      var (h, j) := CondJump(g, i);
      Branches(h, j, cond, v, base, q, Out(h, w, regs))
  {
    EmitTest(g, if negated then Test(r, !cond) else TestSet(NO_REG, r, cond), w, regs);
  }

  /** `jumponcond`, when the expression is a NOT that is taken back. */
  lemma {:induction false} JumpOnNot(g: Gen, e: Exp, cond: bool, base: nat, w: World, regs: Regs)
    requires WellFormed(Base(g, e)) && RelocOk(g, e) && e.k.VReloc?
    ensures var (h, _, j) := JumpOnCond(g, e, cond); var b := Base(g, e);
      && WellFormed(h) && Grown(b, h) && h.here == [] && h.free == g.free && j == |b.code| + 1 == |h.code| - 1
      && Pends(h.code, j) && Pending(h.code, [j])
      && (Out(b, w, regs) != Stuck ==>
           match Out(b, w, regs)
           case Fall(r) => Branches(h, j, cond, MainValue(g, e.k, w, r), base, r, Out(h, w, regs))
           case x => Out(h, w, regs) == x)
  {
    hide Exec;
    var b, i := Base(g, e), Test(g.code[e.k.pc].b, !cond);
    EmitTest(b, i, w, regs);
    if Out(b, w, regs).Fall? {
      var r := Out(b, w, regs).regs;
      TestBranches(b, g.code[e.k.pc].b, true, cond, base, w, r, regs);
    }
  }

  /** `jumponcond` on a value in a register. */
  lemma {:induction false} JumpOnReg(g: Gen, r: nat, cond: bool, base: nat, w: World, regs: Regs)
    requires WellFormed(g)
    ensures var (h, j) := CondJump(g, TestSet(NO_REG, r, cond));
      && WellFormed(h) && Grown(g, h) && h.here == [] && h.free == g.free && j == |g.code| + 1 == |h.code| - 1
      && Pends(h.code, j) && Pending(h.code, [j])
      && (Out(g, w, regs) != Stuck ==>
           match Out(g, w, regs)
           case Fall(q) => Branches(h, j, cond, Get(q, r), base, q, Out(h, w, regs))
           case x => Out(h, w, regs) == x)
  {
    var i := TestSet(NO_REG, r, cond);
    EmitTest(g, i, w, regs);
    if Out(g, w, regs).Fall? {
      var q := Out(g, w, regs).regs;
      TestBranches(g, r, false, cond, base, w, q, regs);
    }
  }

  // ----- conditions -----

  /** What a condition has generated: jumps out through `exits`, control going on otherwise. */
  ghost predicate CondState(g0: Gen, g: Gen, exits: seq<nat>) {
    && WellFormed(g) && Grown(g0, g) && g.free == g0.free && Pending(g.code, exits)
    && (forall p :: p in exits ==> p >= |g0.code| && p !in g.here)
  }

  /** Control goes on if the value of `x` is `go`, and leaves with the value otherwise. */
  ghost predicate Decides(g0: Gen, g: Gen, exits: seq<nat>, go: bool, x: Expr, w: World, regs: Regs) {
    match Out(g0, w, regs)
    case Stuck => true
    case Fall(r1) =>
      (match Eval(x, r1, w.cmp)
       case None => Out(g, w, regs) == Raise
       case Some(v) =>
         match Out(g, w, regs)
         case Fall(r) => Keeps(r, r1, g0.free) && Truthy(v) == go
         case Leave(p, r) => Keeps(r, r1, g0.free) && p in exits && Truthy(v) != go && JumpValue(g.code, p, r, !go) == v
         case _ => false)
    case o => Out(g, w, regs) == o
  }

  // ----- the last test negated -----

  lemma {:induction false} NegatedNext(g: Gen, e: Exp, w: World, pc: nat, regs: Regs)
    requires WellFormed(g) && KindOk(g, e, g.free) && e.k.VJmp? && Open(g.code, pc) && pc < e.k.pc - 1
    ensures Next(Negate(g.code, e.k.pc), w, pc, regs) == Next(g.code, w, pc, regs)
    ensures match Next(g.code, w, pc, regs)
            case Goes(pc', _) => pc' < e.k.pc && Open(g.code, pc')
            case Ends(Leave(p, _)) => p < e.k.pc
            case Ends(_) => true
  {
    var c, c', n := g.code, Negate(g.code, e.k.pc), e.k.pc;
    assert forall j :: 0 <= j < |c| && j != n - 1 ==> c'[j] == c[j];
    assert IsTest(c[pc]) ==> c[pc + 1].Goto?;
    NextSame(c, c', w, pc, regs);
    NextReach(g, w, pc, regs, n - 1);
    NextStaysOpen(c, w, pc, regs);
  }

  /** The test at the end, as it is and negated. */
  lemma {:induction false} LastTestNegated(g: Gen, e: Exp, w: World, regs: Regs)
    requires WellFormed(g) && KindOk(g, e, g.free) && e.k.VJmp?
    ensures Exec(Negate(g.code, e.k.pc), w, e.k.pc - 1, regs) == Exchanged(Exec(g.code, w, e.k.pc - 1, regs), e.k.pc)
  {
    var c, c', n := g.code, Negate(g.code, e.k.pc), e.k.pc;
    assert c'[n - 1] == c[n - 1].(want := !c[n - 1].want) && c'[n] == c[n] == Goto(PENDING) && |c| == n + 1;
    assert TakeJump(c, n, regs) == Ends(Leave(n, regs)) && TakeJump(c', n, regs) == Ends(Leave(n, regs));
    assert Land(c, n + 1, regs) == Goes(n + 1, regs) && Land(c', n + 1, regs) == Goes(n + 1, regs);
  }

  /** Going on and leaving through `j`, exchanged. */
  function Exchanged(x: Exit, j: nat): Exit {
    match x
    case Fall(r) => Leave(j, r)
    case Leave(p, r) => if p == j then Fall(r) else Leave(p, r)
    case _ => x
  }

  lemma {:induction false} ExecNext(c: seq<Instr>, w: World, pc: nat, regs: Regs)
    requires pc < |c|
    ensures Exec(c, w, pc, regs) ==
            match Next(c, w, pc, regs)
            case Ends(x) => x
            case Goes(pc', regs') => Exec(c, w, pc', regs')
  {
    hide Next;
  }

  /** Negating the test at the end exchanges going on and leaving. */
  lemma {:induction false} NegatedRuns(g: Gen, e: Exp, w: World, pc: nat, regs: Regs)
    requires WellFormed(g) && KindOk(g, e, g.free) && e.k.VJmp? && Open(g.code, pc) && pc < e.k.pc
    ensures Exec(Negate(g.code, e.k.pc), w, pc, regs) == Exchanged(Exec(g.code, w, pc, regs), e.k.pc)
    decreases |g.code| - pc
  {
    if pc == e.k.pc - 1 {
      LastTestNegated(g, e, w, regs);
    } else {
      NegatedNext(g, e, w, pc, regs);
      ExecNext(g.code, w, pc, regs);
      ExecNext(Negate(g.code, e.k.pc), w, pc, regs);
      hide Exec, Next;
      match Next(g.code, w, pc, regs)
      case Ends(_) =>
      case Goes(pc', regs') => NegatedRuns(g, e, w, pc', regs');
    }
  }

  // ----- goiftrue, goiffalse -----

  /** `jumponcond` for any expression but a pending test: control leaves through `j` with the main value when it is
      `cond`. */
  lemma {:induction false} JumpOnCondState(g0: Gen, g: Gen, e: Exp, cond: bool, x: Expr, w: World, regs: Regs)
    requires State(g0, g, e) && !e.k.VJmp? && !e.k.VLocal?
    ensures var (h, e', j) := JumpOnCond(g, e, cond);
      && WellFormed(h) && Grown(g0, h) && h.free == g0.free && h.here == [] && Pending(h.code, [j]) && j >= |g0.code|
      && e'.t == e.t && e'.f == e.f && ListsOk(h, Exp(VNil, e.t, e.f), |g0.code|) && j !in e.t && j !in e.f
      && g.ks <= h.ks
      && (h.ks <= w.ks && Means(g0, g, e, x, w, regs) ==>
            Split(g0, h, [j], cond, e.t, e.f, x, w, regs))
  {
    if e.k.VReloc? {
      SplitAtNot(g0, g, e, cond, x, w, regs);
    } else {
      SplitAtReg(g0, g, e, cond, x, w, regs);
    }
  }

  /** The value of `x` decides: through `j` or the lists with it, or on. */
  ghost predicate Split(g0: Gen, h: Gen, js: seq<nat>, cond: bool, t: seq<nat>, f: seq<nat>, x: Expr, w: World,
                        regs: Regs) {
    match Out(g0, w, regs)
    case Stuck => true
    case Fall(r1) =>
      (match Eval(x, r1, w.cmp)
       case None => Out(h, w, regs) == Raise
       case Some(v) =>
         match Out(h, w, regs)
         case Fall(r) => Keeps(r, r1, g0.free) && Truthy(v) != cond
         case Leave(p, r) =>
           && Keeps(r, r1, g0.free)
           && (if p in js then Truthy(v) == cond && JumpValue(h.code, p, r, cond) == v
               else if p in t then Truthy(v) && JumpValue(h.code, p, r, true) == v
               else p in f && !Truthy(v) && JumpValue(h.code, p, r, false) == v)
         case _ => false)
    case o => Out(h, w, regs) == o
  }

  /** From the main value at the end of `b` to the jump on it at the end of `h`. */
  lemma {:induction false} MeansSplits(g0: Gen, g: Gen, e: Exp, h: Gen, j: nat, cond: bool, x: Expr, w: World,
                                       regs: Regs)
    requires State(g0, g, e) && !e.k.VJmp? && Means(g0, g, e, x, w, regs)
    requires Grown(Base(g, e), h) && j >= |Base(g, e).code|
    requires Out(Base(g, e), w, regs) != Stuck ==>
      match Out(Base(g, e), w, regs)
      case Fall(r) => Branches(h, j, cond, MainValue(g, e.k, w, r), g0.free, r, Out(h, w, regs))
      case o => Out(h, w, regs) == o
    ensures Split(g0, h, [j], cond, e.t, e.f, x, w, regs)
  {
    var b := Base(g, e);
    ListsInBase(g, e, |g0.code|);
    match Out(b, w, regs)
    case Leave(p, r) =>
      LeavesThroughPending(b.code, w, 0, regs);
      if p in e.t || p in e.f {
        assert Survives(b, h, p);
        SurvivorsKeepValue(b, h, p, r, true);
        SurvivorsKeepValue(b, h, p, r, false);
      }
    case _ =>
  }

  lemma {:induction false} SplitAtNot(g0: Gen, g: Gen, e: Exp, cond: bool, x: Expr, w: World, regs: Regs)
    requires State(g0, g, e) && e.k.VReloc?
    ensures var (h, e', j) := JumpOnCond(g, e, cond);
      && WellFormed(h) && Grown(g0, h) && h.free == g0.free && h.here == [] && Pending(h.code, [j]) && j >= |g0.code|
      && e' == e && ListsOk(h, Exp(VNil, e.t, e.f), |g0.code|) && j !in e.t && j !in e.f && g.ks <= h.ks
      && (Means(g0, g, e, x, w, regs) ==> Split(g0, h, [j], cond, e.t, e.f, x, w, regs))
  {
    var (h, e', j) := JumpOnCond(g, e, cond);
    var b := Base(g, e);
    JumpOnNot(g, e, cond, g0.free, w, regs);
    GrownTrans(g0, b, h);
    ListsInBase(g, e, |g0.code|);
    ListsSurvive(b, h, e, Exp(VNil, e.t, e.f), |g0.code|);
    assert forall p :: p in e.t || p in e.f ==> Pends(b.code, p);
    if Means(g0, g, e, x, w, regs) {
      MeansSplits(g0, g, e, h, j, cond, x, w, regs);
    }
  }

  /** The main value in a register, and the registers freed again. */
  lemma {:induction false} AnyRegMain(g0: Gen, g: Gen, e: Exp, x: Expr, w: World, regs: Regs)
    requires State(g0, g, e) && !e.k.VJmp? && !e.k.VLocal?
    ensures var (g1, e1) := Discharge2AnyReg(g, e);
      && State(g0, g1, e1) && e1.k.VNonReloc? && e1.t == e.t && e1.f == e.f && FreeExp(g1, e1) == g1.(free := g0.free)
      && g.ks <= g1.ks
      && (g1.ks <= w.ks && Means(g0, g, e, x, w, regs) ==> Means(g0, g1, e1, x, w, regs))
  {
    if !e.k.VNonReloc? {
      assert Reserve(g) == g.(free := g0.free + 1);
      ToReg(g0, g, e, x, w, regs);
    }
  }

  lemma {:induction false} SplitAtReg(g0: Gen, g: Gen, e: Exp, cond: bool, x: Expr, w: World, regs: Regs)
    requires State(g0, g, e) && !e.k.VReloc? && !e.k.VJmp? && !e.k.VLocal?
    ensures var (h, e', j) := JumpOnCond(g, e, cond);
      && WellFormed(h) && Grown(g0, h) && h.free == g0.free && h.here == [] && Pending(h.code, [j]) && j >= |g0.code|
      && e'.t == e.t && e'.f == e.f && ListsOk(h, Exp(VNil, e.t, e.f), |g0.code|) && j !in e.t && j !in e.f
      && g.ks <= h.ks
      && (h.ks <= w.ks && Means(g0, g, e, x, w, regs) ==> Split(g0, h, [j], cond, e.t, e.f, x, w, regs))
  {
    hide Means, Split, Exec, Discharge2AnyReg;
    var (g1, e1) := Discharge2AnyReg(g, e);
    AnyRegMain(g0, g, e, x, w, regs);
    var k := FreeExp(g1, e1);
    var (h, j) := CondJump(k, TestSet(NO_REG, e1.k.r, cond));
    assert JumpOnCond(g, e, cond) == (h, e1, j);
    JumpOnReg(k, e1.k.r, cond, g0.free, w, regs);
    assert Grown(g1, k);
    GrownTrans(g1, k, h);
    GrownTrans(g0, g1, h);
    ListsSurvive(g1, h, e1, Exp(VNil, e.t, e.f), |g0.code|);
    assert forall p :: p in e.t || p in e.f ==> Pends(g1.code, p);
    assert Out(k, w, regs) == Out(g1, w, regs);
    if h.ks <= w.ks && Means(g0, g, e, x, w, regs) {
      MeansSplits(g0, g1, e1, h, j, cond, x, w, regs);
    }
  }

  // ----- the end of a condition -----

  /** The state between the jump on the main value and the patching of one list to "here". */
  ghost predicate SplitState(g0: Gen, h: Gen, js: seq<nat>, t: seq<nat>, f: seq<nat>) {
    && WellFormed(h) && Grown(g0, h) && h.free == g0.free && Pending(h.code, js)
    && ListsOk(h, Exp(VNil, t, f), |g0.code|)
    && (forall p :: p in js ==> p >= |g0.code| && p !in t && p !in f && p !in h.here)
  }

  lemma {:induction false} ToHereState(g0: Gen, h: Gen, js: seq<nat>, stay: seq<nat>, exits: seq<nat>)
    requires SplitState(g0, h, js, stay, exits) || SplitState(g0, h, js, exits, stay)
    ensures CondState(g0, PatchToHere(h, stay), exits + js) && PatchToHere(h, stay).ks == h.ks
  {
    var g' := PatchToHere(h, stay);
    forall j | 0 <= j < |g'.code| ensures Reaches(g'.code[j], j, g'.lastTarget) {
      assert Reaches(h.code[j], j, h.lastTarget);
    }
    forall p: nat | Pends(g0.code, p) && p !in g0.here ensures Survives(g0, g', p) {
      assert Survives(g0, h, p);
    }
  }

  lemma {:induction false} ToHereDecides(g0: Gen, h: Gen, js: seq<nat>, go: bool, t: seq<nat>, f: seq<nat>, x: Expr,
                                         w: World, regs: Regs)
    requires SplitState(g0, h, js, t, f) && Split(g0, h, js, !go, t, f, x, w, regs)
    ensures Decides(g0, PatchToHere(h, if go then t else f), (if go then f else t) + js, go, x, w, regs)
  {
    hide Eval, Truthy, JumpValue, Exec;
    LeavesThroughPending(g0.code, w, 0, regs);
  }

  lemma {:induction false} NegatedAt(c: seq<Instr>, n: nat)
    requires 0 < n == |c| - 1 && c[n - 1].Cmp?
    ensures var c' := Negate(c, n);
      && |c'| == |c| && c'[n - 1] == c[n - 1].(want := !c[n - 1].want)
      && (forall j :: 0 <= j < |c| && j != n - 1 ==> c'[j] == c[j])
      && (forall j :: 0 <= j < |c| ==> IsTest(c'[j]) == IsTest(c[j]))
  {
  }

  /** A pending test, negated: leaving through it is for the value false. */
  lemma {:induction false} NegatedState(g0: Gen, g: Gen, e: Exp, x: Expr, w: World, regs: Regs)
    requires State(g0, g, e) && e.k.VJmp?
    ensures var h := g.(code := Negate(g.code, e.k.pc));
      && SplitState(g0, h, [e.k.pc], e.t, e.f) && KindOk(h, e, g0.free)
      && (forall p, r, b :: p in e.t || p in e.f ==> JumpValue(h.code, p, r, b) == JumpValue(g.code, p, r, b))
      && (Out(g, w, regs) != Stuck ==> Out(h, w, regs) == Exchanged(Out(g, w, regs), e.k.pc))
  {
    var h := g.(code := Negate(g.code, e.k.pc));
    NegatedAt(g.code, e.k.pc);
    NegatedGrown(g0, g, e, h);
    NegatedRuns(g, e, w, 0, regs);
  }

  lemma {:induction false} NegatedGrown(g0: Gen, g: Gen, e: Exp, h: Gen)
    requires State(g0, g, e) && e.k.VJmp? && h == g.(code := h.code) && |h.code| == |g.code|
    requires h.code[e.k.pc - 1].Cmp? && forall j :: 0 <= j < |g.code| && j != e.k.pc - 1 ==> h.code[j] == g.code[j]
    ensures WellFormed(h) && Grown(g0, h)
  {
    forall j | 0 <= j < |h.code| ensures Reaches(h.code[j], j, h.lastTarget) {
      assert Reaches(g.code[j], j, g.lastTarget);
    }
    assert forall j :: 0 <= j < |g.code| ==> IsTest(h.code[j]) == IsTest(g.code[j]);
    forall p: nat | Pends(g0.code, p) && p !in g0.here ensures Survives(g0, h, p) {
      assert Survives(g0, g, p);
    }
  }

  lemma {:induction false} NegatedSplits(g0: Gen, g: Gen, e: Exp, x: Expr, w: World, regs: Regs)
    requires State(g0, g, e) && e.k.VJmp? && Means(g0, g, e, x, w, regs)
    ensures Split(g0, g.(code := Negate(g.code, e.k.pc)), [e.k.pc], false, e.t, e.f, x, w, regs)
  {
    NegatedState(g0, g, e, x, w, regs);
    LeavesThroughPending(g0.code, w, 0, regs);
  }

  /** From the state after the jump on the main value to the state of the condition. */
  lemma {:induction false} SplitIsCond(g0: Gen, h: Gen, js: seq<nat>, go: bool, t: seq<nat>, f: seq<nat>, x: Expr,
                                       w: World, regs: Regs)
    requires SplitState(g0, h, js, t, f)
    ensures var h', exits := PatchToHere(h, if go then t else f), (if go then f else t) + js;
      && CondState(g0, h', exits) && h'.ks == h.ks
      && (Split(g0, h, js, !go, t, f, x, w, regs) ==> Decides(g0, h', exits, go, x, w, regs))
  {
    ToHereState(g0, h, js, if go then t else f, if go then f else t);
    if Split(g0, h, js, !go, t, f, x, w, regs) {
      ToHereDecides(g0, h, js, go, t, f, x, w, regs);
    }
  }

  /** A constant of known truth decides without a jump. */
  lemma {:induction false} KnownSplits(g0: Gen, g: Gen, e: Exp, go: bool, x: Expr, w: World, regs: Regs)
    requires State(g0, g, e) && TrueConstants(g, e)
    requires if go then e.k.VK? || e.k.VKNum? || e.k.VTrue? else e.k.VNil? || e.k.VFalse?
    ensures SplitState(g0, g, [], e.t, e.f)
    ensures g.ks <= w.ks && Means(g0, g, e, x, w, regs) ==> Split(g0, g, [], !go, e.t, e.f, x, w, regs)
  {
  }

  /** `luaK_goiftrue` when `e` needs no discharge. */
  lemma {:induction false} GoIfTrueCases(g0: Gen, g: Gen, e: Exp, x: Expr, w: World, regs: Regs)
    requires State(g0, g, e) && TrueConstants(g, e) && !e.k.VLocal?
    ensures var (h, e') := GoIfTrue(g, e);
      && CondState(g0, h, e'.f) && e'.t == [] && g.ks <= h.ks
      && (h.ks <= w.ks && Means(g0, g, e, x, w, regs) ==> Decides(g0, h, e'.f, true, x, w, regs))
  {
    if e.k.VJmp? {
      var h := g.(code := Negate(g.code, e.k.pc));
      NegatedState(g0, g, e, x, w, regs);
      if Means(g0, g, e, x, w, regs) {
        NegatedSplits(g0, g, e, x, w, regs);
      }
      SplitIsCond(g0, h, [e.k.pc], true, e.t, e.f, x, w, regs);
    } else if e.k.VK? || e.k.VKNum? || e.k.VTrue? {
      KnownSplits(g0, g, e, true, x, w, regs);
      SplitIsCond(g0, g, [], true, e.t, e.f, x, w, regs);
    } else {
      JumpOnCondState(g0, g, e, false, x, w, regs);
      var (h, _, j) := JumpOnCond(g, e, false);
      SplitIsCond(g0, h, [j], true, e.t, e.f, x, w, regs);
    }
  }

  /** `luaK_goiftrue`. */
  lemma {:induction false} GoIfTrueState(g0: Gen, g: Gen, e: Exp, x: Expr, w: World, regs: Regs)
    requires State(g0, g, e) && TrueConstants(g, e)
    ensures var (h, e') := GoIfTrue(g, e);
      && CondState(g0, h, e'.f) && e'.t == [] && g.ks <= h.ks
      && (h.ks <= w.ks && Means(g0, g, e, x, w, regs) ==> Decides(g0, h, e'.f, true, x, w, regs))
  {
    VarsState(g0, g, e, x, w, regs);
    GoIfTrueCases(g0, g, DischargeVars(e), x, w, regs);
    assert GoIfTrue(g, DischargeVars(e)) == GoIfTrue(g, e);
  }

  /** `luaK_goiffalse` when `e` needs no discharge. */
  lemma {:induction false} GoIfFalseCases(g0: Gen, g: Gen, e: Exp, x: Expr, w: World, regs: Regs)
    requires State(g0, g, e) && TrueConstants(g, e) && !e.k.VLocal?
    ensures var (h, e') := GoIfFalse(g, e);
      && CondState(g0, h, e'.t) && e'.f == [] && g.ks <= h.ks
      && (h.ks <= w.ks && Means(g0, g, e, x, w, regs) ==> Decides(g0, h, e'.t, false, x, w, regs))
  {
    if e.k.VJmp? {
      PendingSplits(g0, g, e, x, w, regs);
      SplitIsCond(g0, g, [e.k.pc], false, e.t, e.f, x, w, regs);
    } else if e.k.VNil? || e.k.VFalse? {
      KnownSplits(g0, g, e, false, x, w, regs);
      SplitIsCond(g0, g, [], false, e.t, e.f, x, w, regs);
    } else {
      JumpOnCondState(g0, g, e, true, x, w, regs);
      var (h, _, j) := JumpOnCond(g, e, true);
      SplitIsCond(g0, h, [j], false, e.t, e.f, x, w, regs);
    }
  }

  /** A pending test already leaves when it is true. */
  lemma {:induction false} PendingSplits(g0: Gen, g: Gen, e: Exp, x: Expr, w: World, regs: Regs)
    requires State(g0, g, e) && e.k.VJmp?
    ensures SplitState(g0, g, [e.k.pc], e.t, e.f)
    ensures Means(g0, g, e, x, w, regs) ==> Split(g0, g, [e.k.pc], true, e.t, e.f, x, w, regs)
  {
    PendingState(g0, g, e);
    PendingMeans(g0, g, e, x, w, regs);
    hide State, SplitState, Means, Split;
  }

  lemma {:induction false} PendingState(g0: Gen, g: Gen, e: Exp)
    requires State(g0, g, e) && e.k.VJmp?
    ensures SplitState(g0, g, [e.k.pc], e.t, e.f)
  {
    hide Exec, Eval;
  }

  lemma {:induction false} PendingMeans(g0: Gen, g: Gen, e: Exp, x: Expr, w: World, regs: Regs)
    requires State(g0, g, e) && e.k.VJmp?
    ensures Means(g0, g, e, x, w, regs) ==> Split(g0, g, [e.k.pc], true, e.t, e.f, x, w, regs)
  {
    hide Exec, Eval;
  }

  /** `luaK_goiffalse`. */
  lemma {:induction false} GoIfFalseState(g0: Gen, g: Gen, e: Exp, x: Expr, w: World, regs: Regs)
    requires State(g0, g, e) && TrueConstants(g, e)
    ensures var (h, e') := GoIfFalse(g, e);
      && CondState(g0, h, e'.t) && e'.f == [] && g.ks <= h.ks
      && (h.ks <= w.ks && Means(g0, g, e, x, w, regs) ==> Decides(g0, h, e'.t, false, x, w, regs))
  {
    VarsState(g0, g, e, x, w, regs);
    GoIfFalseCases(g0, g, DischargeVars(e), x, w, regs);
    assert GoIfFalse(g, DischargeVars(e)) == GoIfFalse(g, e);
  }
}
