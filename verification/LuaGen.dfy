/** What each function of lcode.c does to the code being generated, with jump lists as sequences and jump destinations
    worked out. */
module LuaGen {
  import opened Basics
  import opened LuaMachine

  const MAXINDEXRK: nat := 255

  /** The generator: code, pending jumps to "here" (`jpc`), `lasttarget`, `freereg`, `nactvar`, constants, and the
      scanner's table of where constants may be, which other functions may have written to as well. */
  datatype Gen = Gen(code: seq<Instr>, here: seq<nat>, lastTarget: nat, free: nat, nact: nat, ks: seq<Value>,
                     cache: map<Value, nat>)

  datatype Kind =
    | VNil | VTrue | VFalse | VK(k: nat) | VKNum(v: Value)
    | VLocal(r: nat) | VNonReloc(r: nat) | VJmp(pc: nat) | VReloc(pc: nat)

  /** An expression descriptor with its lists of pending jumps. */
  datatype Exp = Exp(k: Kind, t: seq<nat>, f: seq<nat>)

  function Simple(k: Kind): Exp {
    Exp(k, [], [])
  }

  predicate HasJumps(e: Exp) {
    e.t != [] || e.f != []
  }

  // ----- jumps -----

  /** Instruction `j` after `patchlistaux` has gone over the jumps `xs`. */
  function PatchedAt(c: seq<Instr>, xs: seq<nat>, vtarget: int, reg: int, dtarget: int, j: nat): Instr
    requires j < |c|
  {
    if j in xs then Goto(if j > 0 && c[j - 1].TestSet? then vtarget else dtarget)
    else if j + 1 in xs && c[j].TestSet? then
      if reg >= 0 && reg != c[j].b then c[j].(dest := reg) else Test(c[j].b, c[j].c)
    else c[j]
  }

  /** `patchlistaux`: tests producing values jump to `vtarget` and put them in `reg`, other tests jump to `dtarget`. */
  function Patch(c: seq<Instr>, xs: seq<nat>, vtarget: int, reg: int, dtarget: int): (c': seq<Instr>)
    ensures |c'| == |c|
  {
    seq(|c|, j requires 0 <= j < |c| => PatchedAt(c, xs, vtarget, reg, dtarget, j))
  }

  /** `removevalues`: no test of `xs` produces a value. */
  function RemoveValues(c: seq<Instr>, xs: seq<nat>): (c': seq<Instr>)
    ensures |c'| == |c|
  {
    seq(|c|, j requires 0 <= j < |c| => if j + 1 in xs && c[j].TestSet? then Test(c[j].b, c[j].c) else c[j])
  }

  /** `dischargejpc`. */
  function Discharge(g: Gen): Gen {
    g.(code := Patch(g.code, g.here, |g.code|, NO_REG, |g.code|), here := [])
  }

  /** `luaK_code`. */
  function Emit(g: Gen, i: Instr): Gen {
    Discharge(g).(code := Discharge(g).code + [i])
  }

  /** `luaK_jump`: the new jump heads the list of those that were to come here. */
  function Jump(g: Gen): (Gen, seq<nat>) {
    (g.(code := g.code + [Goto(PENDING)], here := []), [|g.code|] + g.here)
  }

  /** `luaK_getlabel`. */
  function Label(g: Gen): Gen {
    g.(lastTarget := |g.code|)
  }

  /** `luaK_patchtohere`. */
  function PatchToHere(g: Gen, xs: seq<nat>): Gen {
    Label(g).(here := g.here + xs)
  }

  /** `condjump`: the test, then the jump it controls. */
  function CondJump(g: Gen, i: Instr): (Gen, nat) {
    (Jump(Emit(g, i)).0, |g.code| + 1)
  }

  // ----- registers and constants -----

  /** `freereg`. */
  function FreeReg(g: Gen, r: nat): Gen {
    if r >= g.nact && g.free > 0 then g.(free := g.free - 1) else g
  }

  function FreeExp(g: Gen, e: Exp): Gen {
    if e.k.VNonReloc? then FreeReg(g, e.k.r) else g
  }

  /** `freeexps`: the higher register first. */
  function FreeExps(g: Gen, e1: Exp, e2: Exp): Gen {
    if e1.k.VNonReloc? && (!e2.k.VNonReloc? || e1.k.r > e2.k.r) then FreeExp(FreeExp(g, e1), e2)
    else FreeExp(FreeExp(g, e2), e1)
  }

  /** `addk`: the index the table gives for a constant, if the constant is there; else a new constant. */
  function AddK(g: Gen, v: Value): (Gen, nat) {
    if v in g.cache && g.cache[v] < |g.ks| && g.ks[g.cache[v]] == v then (g, g.cache[v])
    else (g.(ks := g.ks + [v], cache := g.cache[v := |g.ks|]), |g.ks|)
  }

  // ----- putting values into registers -----

  /** `luaK_nil` for one register: extend the previous LOADNIL unless a jump may come between. */
  function LoadNilAt(g: Gen, reg: nat): Gen {
    var n := |g.code|;
    if n > g.lastTarget && n > 0 && g.code[n - 1].LoadNil? && Adjacent(g.code[n - 1].a, g.code[n - 1].n, reg) then
      g.(code := g.code[n - 1 := Widen(g.code[n - 1].a, g.code[n - 1].n, reg)])
    else Emit(g, LoadNil(reg, 0))
  }

  /** The register touches the range that starts at `a` and goes `n` registers further. */
  predicate Adjacent(a: nat, n: nat, reg: nat) {
    (a <= reg && reg <= a + n + 1) || (reg <= a && a <= reg + 1)
  }

  function Widen(a: nat, n: nat, reg: nat): Instr {
    var low := if a < reg then a else reg;
    var high := if a + n > reg then a + n else reg;
    LoadNil(low, high - low)
  }

  /** `luaK_dischargevars`. */
  function DischargeVars(e: Exp): Exp {
    if e.k.VLocal? then e.(k := VNonReloc(e.k.r)) else e
  }

  /** `discharge2reg`. */
  function Discharge2Reg(g: Gen, e: Exp, reg: nat): (Gen, Exp) {
    var e' := e.(k := VNonReloc(reg));
    match DischargeVars(e).k
    case VNil => (LoadNilAt(g, reg), e')
    case VFalse => (Emit(g, LoadBool(reg, false, false)), e')
    case VTrue => (Emit(g, LoadBool(reg, true, false)), e')
    case VK(k) => (Emit(g, LoadK(reg, k)), e')
    case VKNum(v) => var (g1, k) := AddK(g, v); (Emit(g1, LoadK(reg, k)), e')
    case VReloc(pc) =>
      (if pc < |g.code| && g.code[pc].NotOp? then g.(code := g.code[pc := NotOp(reg, g.code[pc].b)]) else g, e')
    case VNonReloc(r) => (if reg != r then Emit(g, Move(reg, r)) else g, e')
    case VLocal(_) => (g, e')
    case VJmp(_) => (g, e)
  }

  function Reserve(g: Gen): (g': Gen)
    ensures g'.free > 0
  {
    g.(free := g.free + 1)
  }

  /** `discharge2anyreg`. */
  function Discharge2AnyReg(g: Gen, e: Exp): (Gen, Exp) {
    if e.k.VNonReloc? then (g, e) else Discharge2Reg(Reserve(g), e, g.free)
  }

  /** `need_value`: some jump of the list produces no value. */
  predicate NeedValue(c: seq<Instr>, xs: seq<nat>) {
    exists p :: p in xs && !(0 < p <= |c| && c[p - 1].TestSet?)
  }

  /** The end of `exp2reg`: both lists go to the final position, or to the load of the value they do not produce. */
  function ClosePatch(g: Gen, e: Exp, reg: nat, pf: int, pt: int): Gen {
    var final := |g.code|;
    Label(g).(code := Patch(Patch(g.code, e.f, final, reg, pf), e.t, final, reg, pt))
  }

  /** `exp2reg` once the main value is in `reg` or `e` is a pending test. */
  function CloseJumps(g: Gen, e: Exp, reg: nat): Gen {
    var t := if e.k.VJmp? then e.t + [e.k.pc] else e.t;
    var e1 := e.(t := t);
    if !HasJumps(e1) then g
    else if NeedValue(g.code, e1.t) || NeedValue(g.code, e1.f) then
      var (g1, fj) := if e.k.VJmp? then (g, []) else Jump(g);
      var pf := |g1.code|;
      var g2 := Emit(Label(g1), LoadBool(reg, false, true));
      var pt := |g2.code|;
      var g3 := Emit(Label(g2), LoadBool(reg, true, false));
      ClosePatch(PatchToHere(g3, fj), e1, reg, pf, pt)
    else ClosePatch(g, e1, reg, PENDING, PENDING)
  }

  /** `exp2reg`. */
  function Exp2Reg(g: Gen, e: Exp, reg: nat): (Gen, Exp) {
    var (g1, e1) := Discharge2Reg(g, e, reg);
    (CloseJumps(g1, e1, reg), Simple(VNonReloc(reg)))
  }

  /** `luaK_exp2nextreg`. */
  function Exp2NextReg(g: Gen, e: Exp): (Gen, Exp) {
    var e1 := DischargeVars(e);
    var g1 := Reserve(FreeExp(g, e1));
    Exp2Reg(g1, e1, g1.free - 1)
  }

  /** `luaK_exp2anyreg`. */
  function Exp2AnyReg(g: Gen, e: Exp): (Gen, Exp) {
    var e1 := DischargeVars(e);
    if e1.k.VNonReloc? && !HasJumps(e1) then (g, e1)
    else if e1.k.VNonReloc? && e1.k.r >= g.nact then Exp2Reg(g, e1, e1.k.r)
    else Exp2NextReg(g, e1)
  }

  /** `luaK_exp2val`. */
  function Exp2Val(g: Gen, e: Exp): (Gen, Exp) {
    if HasJumps(e) then Exp2AnyReg(g, e) else (g, DischargeVars(e))
  }

  /** The value of a constant that is not in the table yet. */
  function ConstantOf(k: Kind): Option<Value> {
    match k
    case VNil => Some(Nil)
    case VTrue => Some(Bool(true))
    case VFalse => Some(Bool(false))
    case VKNum(v) => Some(v)
    case _ => None
  }

  /** A constant moved to the table. */
  function Tabled(g: Gen, e: Exp): (Gen, Exp) {
    match ConstantOf(e.k)
    case Some(v) => var (h, k) := AddK(g, v); (h, e.(k := VK(k)))
    case None => (g, e)
  }

  /** `luaK_exp2RK`: a constant operand if its index is small enough, else a register. */
  function Exp2RK(g: Gen, e: Exp): (Gen, Exp, RK) {
    var (g1, e1) := Exp2Val(g, e);
    var (g2, e2) := Tabled(g1, e1);
    if e2.k.VK? && e2.k.k <= MAXINDEXRK then (g2, e2, Con(e2.k.k))
    else
      var (g3, e3) := Exp2AnyReg(g2, e2);
      (g3, e3, Reg(if e3.k.VNonReloc? then e3.k.r else 0))
  }

  // ----- conditions -----

  /** `jumponcond`: jump if `e` is `cond`; a NOT just emitted is taken back. */
  function JumpOnCond(g: Gen, e: Exp, cond: bool): (Gen, Exp, nat) {
    if e.k.VReloc? && e.k.pc < |g.code| && g.code[e.k.pc].NotOp? then
      var (h, j) := CondJump(g.(code := g.code[..|g.code| - 1]), Test(g.code[e.k.pc].b, !cond));
      (h, e, j)
    else
      var (g1, e1) := Discharge2AnyReg(g, e);
      var (h, j) := CondJump(FreeExp(g1, e1), TestSet(NO_REG, if e1.k.VNonReloc? then e1.k.r else 0, cond));
      (h, e1, j)
  }

  /** `negatecondition`. */
  function Negate(c: seq<Instr>, j: nat): (c': seq<Instr>)
    ensures |c'| == |c|
  {
    if 0 < j <= |c| && c[j - 1].Cmp? then c[j - 1 := c[j - 1].(want := !c[j - 1].want)] else c
  }

  /** The jumps that leave when `e` is false: none for a constant that is true. */
  function LeaveIfFalse(g: Gen, e: Exp): (Gen, Exp, seq<nat>) {
    if e.k.VJmp? then (g.(code := Negate(g.code, e.k.pc)), e, [e.k.pc])
    else if e.k.VK? || e.k.VKNum? || e.k.VTrue? then (g, e, [])
    else var (h, e', j) := JumpOnCond(g, e, false); (h, e', [j])
  }

  /** The jumps that leave when `e` is true: none for nil and false. */
  function LeaveIfTrue(g: Gen, e: Exp): (Gen, Exp, seq<nat>) {
    if e.k.VJmp? then (g, e, [e.k.pc])
    else if e.k.VNil? || e.k.VFalse? then (g, e, [])
    else var (h, e', j) := JumpOnCond(g, e, true); (h, e', [j])
  }

  /** `luaK_goiftrue`. */
  function GoIfTrue(g: Gen, e: Exp): (Gen, Exp) {
    var (g1, e1, jumps) := LeaveIfFalse(g, DischargeVars(e));
    (PatchToHere(g1, e1.t), e1.(t := [], f := e1.f + jumps))
  }

  /** `luaK_goiffalse`. */
  function GoIfFalse(g: Gen, e: Exp): (Gen, Exp) {
    var (g1, e1, jumps) := LeaveIfTrue(g, DischargeVars(e));
    (PatchToHere(g1, e1.f), e1.(f := [], t := e1.t + jumps))
  }

  /** The main value negated: a constant, a negated test, or a NOT. */
  function NegatedMain(g: Gen, e: Exp): (Gen, Kind) {
    match e.k
    case VNil => (g, VTrue)
    case VFalse => (g, VTrue)
    case VK(_) => (g, VFalse)
    case VKNum(_) => (g, VFalse)
    case VTrue => (g, VFalse)
    case VJmp(pc) => (g.(code := Negate(g.code, pc)), e.k)
    case VLocal(_) => (g, e.k)
    case _ =>
      var (h, e2) := Discharge2AnyReg(g, e);
      var h1 := FreeExp(h, e2);
      (Emit(h1, NotOp(0, if e2.k.VNonReloc? then e2.k.r else 0)), VReloc(|h1.code|))
  }

  /** `codenot`. */
  function CodeNot(g: Gen, e: Exp): (Gen, Exp) {
    var (g1, k) := NegatedMain(g, DischargeVars(e));
    (g1.(code := RemoveValues(RemoveValues(g1.code, e.t), e.f)), Exp(k, e.f, e.t))
  }

  /** The test for a comparison: `>` and `>=` exchange the operands, `~=` negates `==`. */
  function Comparison(op: Op, x: RK, y: RK): Instr {
    match op
    case OpEq => Cmp(Eq, true, x, y)
    case OpLt => Cmp(Lt, true, x, y)
    case OpLe => Cmp(Le, true, x, y)
    case OpNe => Cmp(Eq, false, x, y)
    case OpGt => Cmp(Lt, true, y, x)
    case OpGe => Cmp(Le, true, y, x)
  }

  /** `codecomp`. */
  function CodeComp(g: Gen, op: Op, e1: Exp, e2: Exp): (Gen, Exp) {
    var rk1 := if e1.k.VK? then Con(e1.k.k) else Reg(if e1.k.VNonReloc? then e1.k.r else 0);
    var (g1, e2', rk2) := Exp2RK(g, e2);
    var (g2, j) := CondJump(FreeExps(g1, e1, e2'), Comparison(op, rk1, rk2));
    (g2, e1.(k := VJmp(j)))
  }

  // ----- whole expressions -----

  /** `and`: the jumps out of the first operand join the false list of the second. */
  function PosAnd(e1: Exp, e2: Exp): Exp {
    var e := DischargeVars(e2);
    e.(f := e.f + e1.f)
  }

  function PosOr(e1: Exp, e2: Exp): Exp {
    var e := DischargeVars(e2);
    e.(t := e.t + e1.t)
  }

  /** The descriptor of a literal. */
  function Literal(g: Gen, v: Value): (Gen, Exp) {
    match v
    case Nil => (g, Simple(VNil))
    case Bool(b) => (g, Simple(if b then VTrue else VFalse))
    case Int(_) => (g, Simple(VKNum(v)))
    case Flt(_) => (g, Simple(VKNum(v)))
    case Str(_) => var (h, k) := AddK(g, v); (h, Simple(VK(k)))
  }

  /** The calls a parser makes for an expression: operand, `luaK_infix`, operand, `luaK_posfix`. */
  function Compile(g: Gen, e: Expr): (Gen, Exp)
    decreases e
  {
    match e
    case Local(r) => (g, Simple(VLocal(r)))
    case Lit(v) => Literal(g, v)
    case Not(x) =>
      var (g1, e1) := Compile(g, x);
      CodeNot(g1, e1)
    case And(l, r) =>
      var (g1, e1) := Compile(g, l);
      var (g2, e2) := GoIfTrue(g1, e1);
      var (g3, e3) := Compile(g2, r);
      (g3, PosAnd(e2, e3))
    case Or(l, r) =>
      var (g1, e1) := Compile(g, l);
      var (g2, e2) := GoIfFalse(g1, e1);
      var (g3, e3) := Compile(g2, r);
      (g3, PosOr(e2, e3))
    case Compare(op, l, r) =>
      var (g1, e1) := Compile(g, l);
      var (g2, e2, _) := Exp2RK(g1, e1);
      var (g3, e3) := Compile(g2, r);
      CodeComp(g3, op, e2, e3)
  }
}
