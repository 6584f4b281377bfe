/** Values, expressions and the instructions lcode.c emits for them, with their Lua 5.3 meaning. */
module LuaMachine {
  import opened Basics

  datatype Value = Nil | Bool(b: bool) | Int(i: int) | Flt(x: real) | Str(s: string)

  predicate Truthy(v: Value) {
    v != Nil && v != Bool(false)
  }

  /** The relations the machine knows. */
  datatype Rel = Eq | Lt | Le

  /** What a comparison yields; `None` is a run-time error. */
  type Comparer = (Rel, Value, Value) -> Option<bool>

  datatype Op = OpEq | OpLt | OpLe | OpNe | OpGt | OpGe

  /** Expressions over locals and constants. */
  datatype Expr =
    | Local(r: nat)
    | Lit(v: Value)
    | Not(e: Expr)
    | And(l: Expr, r2: Expr)
    | Or(l: Expr, r2: Expr)
    | Compare(op: Op, l: Expr, r2: Expr)

  type Regs = map<nat, Value>

  function Get(regs: Regs, r: nat): Value {
    if r in regs then regs[r] else Nil
  }

  /** `a > b` is `b < a`, `a >= b` is `b <= a`, `a ~= b` is `not (a == b)`. */
  function Relate(op: Op, x: Value, y: Value, cmp: Comparer): Option<bool> {
    match op
    case OpEq => cmp(Eq, x, y)
    case OpLt => cmp(Lt, x, y)
    case OpLe => cmp(Le, x, y)
    case OpNe => (match cmp(Eq, x, y) case None => None case Some(b) => Some(!b))
    case OpGt => cmp(Lt, y, x)
    case OpGe => cmp(Le, y, x)
  }

  /** The meaning of an expression; `None` when a comparison raises an error. */
  function Eval(e: Expr, regs: Regs, cmp: Comparer): Option<Value> {
    match e
    case Local(r) => Some(Get(regs, r))
    case Lit(v) => Some(v)
    case Not(x) => (match Eval(x, regs, cmp) case None => None case Some(v) => Some(Bool(!Truthy(v))))
    case And(l, r) =>
      (match Eval(l, regs, cmp) case None => None case Some(v) => if Truthy(v) then Eval(r, regs, cmp) else Some(v))
    case Or(l, r) =>
      (match Eval(l, regs, cmp) case None => None case Some(v) => if Truthy(v) then Some(v) else Eval(r, regs, cmp))
    case Compare(op, l, r) =>
      (match Eval(l, regs, cmp)
       case None => None
       case Some(x) =>
         match Eval(r, regs, cmp)
         case None => None
         case Some(y) => match Relate(op, x, y, cmp) case None => None case Some(b) => Some(Bool(b)))
  }

  predicate LocalsBelow(e: Expr, n: nat) {
    match e
    case Local(r) => r < n
    case Lit(_) => true
    case Not(x) => LocalsBelow(x, n)
    case And(l, r) => LocalsBelow(l, n) && LocalsBelow(r, n)
    case Or(l, r) => LocalsBelow(l, n) && LocalsBelow(r, n)
    case Compare(_, l, r) => LocalsBelow(l, n) && LocalsBelow(r, n)
  }

  // ----- instructions -----

  /** An operand: a register or a constant. */
  datatype RK = Reg(r: nat) | Con(k: nat)

  const NO_REG: int := -1
  const PENDING: int := -1

  /** `Jmp` is the instruction as stored, with a relative offset; `Goto` is a jump with its destination worked out, or
      still pending. */
  datatype Instr =
    | Move(a: nat, b: nat)
    | LoadK(a: nat, k: nat)
    | LoadBool(a: nat, b1: bool, skip: bool)
    | LoadNil(a: nat, n: nat)
    | NotOp(a: nat, b: nat)
    | Cmp(rel: Rel, want: bool, x: RK, y: RK)
    | Test(a: nat, c: bool)
    | TestSet(dest: int, b: nat, c: bool)
    | Jmp(sbx: int)
    | Goto(target: int)

  /** Instructions that are followed by the jump they control. */
  predicate IsTest(i: Instr) {
    i.Cmp? || i.Test? || i.TestSet?
  }

  /** The constants of the function and the comparison of values. */
  datatype World = World(ks: seq<Value>, cmp: Comparer)

  function Operand(o: RK, w: World, regs: Regs): Value {
    match o
    case Reg(r) => Get(regs, r)
    case Con(k) => if k < |w.ks| then w.ks[k] else Nil
  }

  function SetNil(regs: Regs, a: nat, n: nat): Regs {
    if n == 0 then regs[a := Nil] else SetNil(regs, a, n - 1)[a + n := Nil]
  }

  /** How a run ends: behind the last instruction, at a jump still pending, or with an error. `Stuck` is none of these:
      a malformed jump, or control entering a test's jump without the test. */
  datatype Exit = Fall(regs: Regs) | Leave(p: nat, regs: Regs) | Raise | Stuck

  datatype Hop = Goes(pc: nat, regs: Regs) | Ends(x: Exit)

  function Land(c: seq<Instr>, pc: int, regs: Regs): Hop {
    if pc < 0 || pc > |c| then Ends(Stuck)
    else if 0 < pc < |c| && IsTest(c[pc - 1]) then Ends(Stuck)
    else Goes(pc, regs)
  }

  /** A jump that is taken goes forward. */
  function TakeJump(c: seq<Instr>, j: nat, regs: Regs): (h: Hop)
    ensures h.Goes? ==> j < h.pc <= |c|
  {
    if j >= |c| then Ends(Stuck)
    else match c[j]
      case Goto(t) =>
        if t == PENDING then Ends(Leave(j, regs)) else if t <= j then Ends(Stuck) else Land(c, t, regs)
      case Jmp(sbx) =>
        if sbx < 0 then Ends(Stuck) else Land(c, j + 1 + sbx, regs)
      case _ => Ends(Stuck)
  }

  /** One instruction, a test together with its jump. */
  function Next(c: seq<Instr>, w: World, pc: nat, regs: Regs): (h: Hop)
    requires pc < |c|
    ensures h.Goes? ==> pc < h.pc <= |c|
  {
    match c[pc]
    case Move(a, b) => Goes(pc + 1, regs[a := Get(regs, b)])
    case LoadK(a, k) => Goes(pc + 1, regs[a := Operand(Con(k), w, regs)])
    case LoadBool(a, b, skip) => if skip then Land(c, pc + 2, regs[a := Bool(b)]) else Goes(pc + 1, regs[a := Bool(b)])
    case LoadNil(a, n) => Goes(pc + 1, SetNil(regs, a, n))
    case NotOp(a, b) => Goes(pc + 1, regs[a := Bool(!Truthy(Get(regs, b)))])
    case Cmp(rel, want, x, y) =>
      (match w.cmp(rel, Operand(x, w, regs), Operand(y, w, regs))
       case None => Ends(Raise)
       case Some(b) => if b == want then TakeJump(c, pc + 1, regs) else Land(c, pc + 2, regs))
    case Test(a, cond) =>
      if Truthy(Get(regs, a)) == cond then TakeJump(c, pc + 1, regs) else Land(c, pc + 2, regs)
    case TestSet(dest, b, cond) =>
      if Truthy(Get(regs, b)) == cond then TakeJump(c, pc + 1, if dest < 0 then regs else regs[dest := Get(regs, b)])
      else Land(c, pc + 2, regs)
    case Jmp(_) => TakeJump(c, pc, regs)
    case Goto(_) => TakeJump(c, pc, regs)
  }

  /** A run from `pc` to its end. */
  function Exec(c: seq<Instr>, w: World, pc: nat, regs: Regs): Exit
    requires pc <= |c|
    decreases |c| - pc
  {
    if pc == |c| then Fall(regs)
    else match Next(c, w, pc, regs)
      case Ends(x) => x
      case Goes(pc', regs') => Exec(c, w, pc', regs')
  }
}
