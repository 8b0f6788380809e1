/**
 The bounded expression DSL: the depth- and step-limited evaluator, the unlimited evaluator
 it stands for, and exactly when the limits show.
 */
module Expressions {
  import opened Common

  const MAX_DEPTH: nat := 32
  const STEP_BUDGET: nat := 10_000

  /** A JSON value; arrays and objects are only ever tested for truth. */
  datatype Value = Null | Bool(b: bool) | Num(n: real) | Str(s: string) | Composite(json: string)

  datatype Expr =
    | Lit(value: Value)
    | Field(name: string)
    | And(all: seq<Expr>)
    | Or(any: seq<Expr>)
    | Not(of: Expr)
    | Cmp(kind: string, lhs: Expr, rhs: Expr)
    | Arith(op: string, left: Expr, right: Expr)
    | Call(fn: string, args: seq<Expr>)
    | If(cond: Expr, then_: Expr, else_: Expr)

  /** Why an evaluation stops: one of the two limits, or an error of the expression itself. */
  datatype Stop = TooDeep | BudgetSpent | Fault

  type Outcome = Result<Value, Stop>

  type Record = map<string, Value>

  /**
   What evaluation depends on besides the expression: the record, the registered functions
   (total, None being their error), and rounding to a float, None when it overflows.
   */
  datatype Env = Env(
    record: Record,
    functions: map<string, seq<Value> -> Option<Value>>,
    rounded: real -> Option<real>)

  // ===== values =====

  predicate Truth(v: Value) {
    match v
    case Bool(b) => b
    case Null => false
    case Num(n) => n != 0.0
    case Str(s) => s != ""
    case Composite(_) => true
  }

  datatype Ordering = Less | Equal | Greater

  function CompareText(a: string, b: string): Ordering {
    if a == b then Equal
    else if a == "" then Less
    else if b == "" then Greater
    else if a[0] != b[0] then (if a[0] < b[0] then Less else Greater)
    else CompareText(a[1..], b[1..])
  }

  function OrderingOf(l: Value, r: Value): Option<Ordering> {
    match (l, r)
    case (Num(a), Num(b)) => Some(if a < b then Less else if a == b then Equal else Greater)
    case (Str(a), Str(b)) => Some(CompareText(a, b))
    case (Bool(a), Bool(b)) => Some(if a == b then Equal else if b then Less else Greater)
    case _ => None
  }

  /** A null operand never matches and never fails, whatever the kind. */
  function Compare(kind: string, l: Value, r: Value): Outcome {
    if l.Null? || r.Null? then Ok(Bool(false))
    else
      match OrderingOf(l, r)
      case None => Err(Fault)
      case Some(ord) =>
        match kind
        case "eq" => Ok(Bool(ord == Equal))
        case "ne" => Ok(Bool(ord != Equal))
        case "lt" => Ok(Bool(ord == Less))
        case "le" => Ok(Bool(ord != Greater))
        case "gt" => Ok(Bool(ord == Greater))
        case "ge" => Ok(Bool(ord != Less))
        case _ => Err(Fault)
  }

  function Calculate(op: string, l: Value, r: Value, env: Env): Outcome {
    if l.Null? || r.Null? then Ok(Null)
    else if !l.Num? || !r.Num? then Err(Fault)
    else
      match op
      case "add" => Rounded(l.n + r.n, env)
      case "sub" => Rounded(l.n - r.n, env)
      case "mul" => Rounded(l.n * r.n, env)
      case "div" => if r.n == 0.0 then Err(Fault) else Rounded(l.n / r.n, env)
      case _ => Err(Fault)
  }

  function Rounded(n: real, env: Env): Outcome {
    var r := env.rounded;
    match r(n)
    case Some(v) => Ok(Num(v))
    case None => Err(Fault)
  }

  function Apply(fn: string, args: seq<Value>, env: Env): Outcome {
    if fn !in env.functions then Err(Fault)
    else
      var f := env.functions[fn];
      match f(args)
      case Some(v) => Ok(v)
      case None => Err(Fault)
  }

  function Lookup(record: Record, name: string): Value {
    if name in record then record[name] else Null
  }

  // ===== the unlimited evaluator =====

  /** How many nodes an evaluation visits, and how far below its root the deepest one is. */
  datatype Cost = Cost(visited: nat, depth: nat)

  const ONE := Cost(1, 0)
  const NOTHING := Cost(0, 0)

  function Max(a: nat, b: nat): nat {
    if a < b then b else a
  }

  /** The root, and everything of `c` one level below it. */
  function Below(c: Cost): Cost {
    Cost(c.visited + 1, if c.visited == 0 then 0 else c.depth + 1)
  }

  function Beside(c: Cost, d: Cost): Cost {
    Cost(c.visited + d.visited, Max(c.depth, d.depth))
  }

  /** The outcome of the unlimited evaluation, and its cost. */
  datatype Trace<+T> = Trace(result: Result<T, Stop>, cost: Cost)

  function Eval(e: Expr, env: Env): (t: Trace<Value>)
    ensures t.cost.visited >= 1
    decreases e, 1
  {
    match e
    case Lit(v) => Trace(Ok(v), ONE)
    case Field(name) => Trace(Ok(Lookup(env.record, name)), ONE)
    case And(all) => var t := EvalChain(all, false, env); Trace(t.result, Below(t.cost))
    case Or(any) => var t := EvalChain(any, true, env); Trace(t.result, Below(t.cost))
    case Not(of) =>
      var t := Eval(of, env);
      Trace(if t.result.Ok? then Ok(Bool(!Truth(t.result.value))) else t.result, Below(t.cost))
    case Cmp(kind, lhs, rhs) =>
      var l := Eval(lhs, env);
      if l.result.Err? then Trace(l.result, Below(l.cost))
      else
        var r := Eval(rhs, env);
        Trace(if r.result.Ok? then Compare(kind, l.result.value, r.result.value) else r.result,
          Below(Beside(l.cost, r.cost)))
    case Arith(op, lhs, rhs) =>
      var l := Eval(lhs, env);
      if l.result.Err? then Trace(l.result, Below(l.cost))
      else
        var r := Eval(rhs, env);
        Trace(if r.result.Ok? then Calculate(op, l.result.value, r.result.value, env) else r.result,
          Below(Beside(l.cost, r.cost)))
    case If(cond, then_, else_) =>
      var c := Eval(cond, env);
      if c.result.Err? then Trace(c.result, Below(c.cost))
      else
        var b := if Truth(c.result.value) then Eval(then_, env) else Eval(else_, env);
        Trace(b.result, Below(Beside(c.cost, b.cost)))
    case Call(fn, args) =>
      var t := EvalArgs(args, env);
      Trace(if t.result.Ok? then Apply(fn, t.result.value, env) else Err(t.result.error), Below(t.cost))
  }

  /** And (`stop` false) ends at its first falsy operand, Or (`stop` true) at its first truthy one. */
  function EvalChain(es: seq<Expr>, stop: bool, env: Env): Trace<Value>
    decreases es, 0
  {
    if es == [] then Trace(Ok(Bool(!stop)), NOTHING)
    else
      var t := Eval(es[0], env);
      if t.result.Err? then t
      else if Truth(t.result.value) == stop then Trace(Ok(Bool(stop)), t.cost)
      else
        var u := EvalChain(es[1..], stop, env);
        Trace(u.result, Beside(t.cost, u.cost))
  }

  function EvalArgs(es: seq<Expr>, env: Env): Trace<seq<Value>>
    decreases es, 0
  {
    if es == [] then Trace(Ok([]), NOTHING)
    else
      var t := Eval(es[0], env);
      if t.result.Err? then Trace(Err(t.result.error), t.cost)
      else
        var u := EvalArgs(es[1..], env);
        Trace(if u.result.Ok? then Ok([t.result.value] + u.result.value) else u.result, Beside(t.cost, u.cost))
  }

  // ===== the bounded evaluator =====

  /** A bounded evaluation: its outcome and the steps left. */
  datatype Run<+T> = Run(result: Result<T, Stop>, steps: nat)

  function Bounded(e: Expr, env: Env, depth: nat, steps: nat): (r: Run<Value>)
    ensures r.steps <= steps
    decreases e, 1
  {
    if depth > MAX_DEPTH then Run(Err(TooDeep), steps)
    else if steps == 0 then Run(Err(BudgetSpent), steps)
    else
      var left := steps - 1;
      match e
      case Lit(v) => Run(Ok(v), left)
      case Field(name) => Run(Ok(Lookup(env.record, name)), left)
      case And(all) => BoundedChain(all, false, env, depth + 1, left)
      case Or(any) => BoundedChain(any, true, env, depth + 1, left)
      case Not(of) =>
        var r := Bounded(of, env, depth + 1, left);
        Run(if r.result.Ok? then Ok(Bool(!Truth(r.result.value))) else r.result, r.steps)
      case Cmp(kind, lhs, rhs) =>
        var l := Bounded(lhs, env, depth + 1, left);
        if l.result.Err? then l
        else
          var r := Bounded(rhs, env, depth + 1, l.steps);
          Run(if r.result.Ok? then Compare(kind, l.result.value, r.result.value) else r.result, r.steps)
      case Arith(op, lhs, rhs) =>
        var l := Bounded(lhs, env, depth + 1, left);
        if l.result.Err? then l
        else
          var r := Bounded(rhs, env, depth + 1, l.steps);
          Run(if r.result.Ok? then Calculate(op, l.result.value, r.result.value, env) else r.result, r.steps)
      case If(cond, then_, else_) =>
        var c := Bounded(cond, env, depth + 1, left);
        if c.result.Err? then c
        else if Truth(c.result.value) then Bounded(then_, env, depth + 1, c.steps)
        else Bounded(else_, env, depth + 1, c.steps)
      case Call(fn, args) =>
        var r := BoundedArgs(args, env, depth + 1, left);
        Run(if r.result.Ok? then Apply(fn, r.result.value, env) else Err(r.result.error), r.steps)
  }

  function BoundedChain(es: seq<Expr>, stop: bool, env: Env, depth: nat, steps: nat): (r: Run<Value>)
    ensures r.steps <= steps
    decreases es, 0
  {
    if es == [] then Run(Ok(Bool(!stop)), steps)
    else
      var r := Bounded(es[0], env, depth, steps);
      if r.result.Err? then r
      else if Truth(r.result.value) == stop then Run(Ok(Bool(stop)), r.steps)
      else BoundedChain(es[1..], stop, env, depth, r.steps)
  }

  function BoundedArgs(es: seq<Expr>, env: Env, depth: nat, steps: nat): (r: Run<seq<Value>>)
    ensures r.steps <= steps
    decreases es, 0
  {
    if es == [] then Run(Ok([]), steps)
    else
      var r := Bounded(es[0], env, depth, steps);
      if r.result.Err? then Run(Err(r.result.error), r.steps)
      else
        var rest := BoundedArgs(es[1..], env, depth, r.steps);
        Run(if rest.result.Ok? then Ok([r.result.value] + rest.result.value) else rest.result, rest.steps)
  }

  /** `eval_inner`: the steps are a counter the loops and recursive calls share. */
  method EvalInner(e: Expr, env: Env, depth: nat, steps: nat) returns (r: Outcome, left: nat)
    ensures Run(r, left) == Bounded(e, env, depth, steps)
    decreases e, 1
  {
    left := steps;
    if depth > MAX_DEPTH {
      return Err(TooDeep), left;
    }
    if left == 0 {
      return Err(BudgetSpent), left;
    }
    left := left - 1;
    match e
    case Lit(v) => r := Ok(v);
    case Field(name) => r := Ok(Lookup(env.record, name));
    case And(all) => r, left := ChainLoop(all, false, env, depth + 1, left);
    case Or(any) => r, left := ChainLoop(any, true, env, depth + 1, left);
    case Not(of) =>
      r, left := EvalInner(of, env, depth + 1, left);
      if r.Ok? {
        r := Ok(Bool(!Truth(r.value)));
      }
    case Cmp(kind, lhs, rhs) =>
      var l;
      l, left := EvalInner(lhs, env, depth + 1, left);
      if l.Err? {
        return l, left;
      }
      r, left := EvalInner(rhs, env, depth + 1, left);
      if r.Ok? {
        r := Compare(kind, l.value, r.value);
      }
    case Arith(op, lhs, rhs) =>
      var l;
      l, left := EvalInner(lhs, env, depth + 1, left);
      if l.Err? {
        return l, left;
      }
      r, left := EvalInner(rhs, env, depth + 1, left);
      if r.Ok? {
        r := Calculate(op, l.value, r.value, env);
      }
    case If(cond, then_, else_) =>
      var c;
      c, left := EvalInner(cond, env, depth + 1, left);
      if c.Err? {
        return c, left;
      }
      if Truth(c.value) {
        r, left := EvalInner(then_, env, depth + 1, left);
      } else {
        r, left := EvalInner(else_, env, depth + 1, left);
      }
    case Call(fn, args) =>
      var argv;
      argv, left := ArgsLoop(args, env, depth + 1, left);
      r := if argv.Ok? then Apply(fn, argv.value, env) else Err(argv.error);
  }

  method ChainLoop(es: seq<Expr>, stop: bool, env: Env, depth: nat, steps: nat) returns (r: Outcome, left: nat)
    ensures Run(r, left) == BoundedChain(es, stop, env, depth, steps)
    decreases es, 0
  {
    left := steps;
    var i := 0;
    while i < |es|
      invariant i <= |es|
      invariant BoundedChain(es[i..], stop, env, depth, left) == BoundedChain(es, stop, env, depth, steps)
    {
      assert es[i..][1..] == es[i + 1..];
      r, left := EvalInner(es[i], env, depth, left);
      if r.Err? {
        return;
      }
      if Truth(r.value) == stop {
        return Ok(Bool(stop)), left;
      }
      i := i + 1;
    }
    r := Ok(Bool(!stop));
  }

  /** The result of the remaining arguments behind those already evaluated. */
  function Appended(argv: seq<Value>, rest: Run<seq<Value>>): Run<seq<Value>> {
    Run(if rest.result.Ok? then Ok(argv + rest.result.value) else rest.result, rest.steps)
  }

  method ArgsLoop(es: seq<Expr>, env: Env, depth: nat, steps: nat) returns (r: Result<seq<Value>, Stop>, left: nat)
    ensures Run(r, left) == BoundedArgs(es, env, depth, steps)
    decreases es, 0
  {
    left := steps;
    var argv: seq<Value> := [];
    var i := 0;
    assert forall vs: seq<Value> :: argv + vs == vs;
    while i < |es|
      invariant i <= |es|
      invariant Appended(argv, BoundedArgs(es[i..], env, depth, left)) == BoundedArgs(es, env, depth, steps)
    {
      ghost var rest := es[i..];
      assert rest[1..] == es[i + 1..];
      var v;
      v, left := EvalInner(es[i], env, depth, left);
      if v.Err? {
        return Err(v.error), left;
      }
      assert forall vs: seq<Value> :: argv + ([v.value] + vs) == argv + [v.value] + vs;
      argv := argv + [v.value];
      i := i + 1;
    }
    assert es[i..] == [] && argv + [] == argv;
    r := Ok(argv);
  }

  function Evaluated(e: Expr, env: Env): Outcome {
    Bounded(e, env, 0, STEP_BUDGET).result
  }

  /** `eval`. */
  method EvalTop(e: Expr, env: Env) returns (r: Outcome)
    ensures r == Evaluated(e, env)
  {
    var left;
    r, left := EvalInner(e, env, 0, STEP_BUDGET);
  }

  // ===== the limits never change an answer =====

  predicate Limited<T>(r: Result<T, Stop>) {
    r.Err? && r.error != Fault
  }

  /** An evaluation of cost `c` at `depth` with `steps` left stays within both limits. */
  predicate Fits(c: Cost, depth: nat, steps: nat) {
    c.visited == 0 || (depth + c.depth <= MAX_DEPTH && c.visited <= steps)
  }

  /** Within the limits the bounded run is the unlimited one; beyond them it says so. */
  predicate Agrees<T(==)>(r: Run<T>, t: Trace<T>, depth: nat, steps: nat) {
    && !Limited(t.result)
    && (Fits(t.cost, depth, steps) ==> r.result == t.result && r.steps == steps - t.cost.visited)
    && (!Fits(t.cost, depth, steps) ==> Limited(r.result))
  }

  lemma {:induction false} BoundedAgrees(e: Expr, env: Env, depth: nat, steps: nat)
    ensures Agrees(Bounded(e, env, depth, steps), Eval(e, env), depth, steps)
    decreases e, 1
  {
    if depth <= MAX_DEPTH && steps > 0 {
      var left := steps - 1;
      match e
      case Lit(_) =>
      case Field(_) =>
      case And(all) =>
        ChainAgrees(all, false, env, depth + 1, left);
        AndAgrees(e, env, depth, steps);
      case Or(any) =>
        ChainAgrees(any, true, env, depth + 1, left);
        OrAgrees(e, env, depth, steps);
      case Not(of) =>
        BoundedAgrees(of, env, depth + 1, left);
        NotAgrees(e, env, depth, steps);
      case Cmp(_, _, _) => CmpAgrees(e, env, depth, steps);
      case Arith(_, _, _) => ArithAgrees(e, env, depth, steps);
      case If(_, _, _) => IfAgrees(e, env, depth, steps);
      case Call(_, args) =>
        ArgsAgree(args, env, depth + 1, left);
        CallAgrees(e, env, depth, steps);
    } else {
      NeverLimited(e, env);
    }
  }

  lemma AndAgrees(e: Expr, env: Env, depth: nat, steps: nat)
    requires e.And? && depth <= MAX_DEPTH && steps > 0
    requires Agrees(BoundedChain(e.all, false, env, depth + 1, steps - 1), EvalChain(e.all, false, env), depth + 1,
      steps - 1)
    ensures Agrees(Bounded(e, env, depth, steps), Eval(e, env), depth, steps)
  {
  }

  lemma OrAgrees(e: Expr, env: Env, depth: nat, steps: nat)
    requires e.Or? && depth <= MAX_DEPTH && steps > 0
    requires Agrees(BoundedChain(e.any, true, env, depth + 1, steps - 1), EvalChain(e.any, true, env), depth + 1,
      steps - 1)
    ensures Agrees(Bounded(e, env, depth, steps), Eval(e, env), depth, steps)
  {
  }

  lemma NotAgrees(e: Expr, env: Env, depth: nat, steps: nat)
    requires e.Not? && depth <= MAX_DEPTH && steps > 0
    requires Agrees(Bounded(e.of, env, depth + 1, steps - 1), Eval(e.of, env), depth + 1, steps - 1)
    ensures Agrees(Bounded(e, env, depth, steps), Eval(e, env), depth, steps)
  {
  }

  lemma CallAgrees(e: Expr, env: Env, depth: nat, steps: nat)
    requires e.Call? && depth <= MAX_DEPTH && steps > 0
    requires Agrees(BoundedArgs(e.args, env, depth + 1, steps - 1), EvalArgs(e.args, env), depth + 1, steps - 1)
    ensures Agrees(Bounded(e, env, depth, steps), Eval(e, env), depth, steps)
  {
  }

  lemma {:induction false} CmpAgrees(e: Expr, env: Env, depth: nat, steps: nat)
    requires e.Cmp? && depth <= MAX_DEPTH && steps > 0
    ensures Agrees(Bounded(e, env, depth, steps), Eval(e, env), depth, steps)
    decreases e, 0
  {
    BoundedAgrees(e.lhs, env, depth + 1, steps - 1);
    BoundedAgrees(e.rhs, env, depth + 1, Bounded(e.lhs, env, depth + 1, steps - 1).steps);
  }

  lemma {:induction false} ArithAgrees(e: Expr, env: Env, depth: nat, steps: nat)
    requires e.Arith? && depth <= MAX_DEPTH && steps > 0
    ensures Agrees(Bounded(e, env, depth, steps), Eval(e, env), depth, steps)
    decreases e, 0
  {
    BoundedAgrees(e.left, env, depth + 1, steps - 1);
    BoundedAgrees(e.right, env, depth + 1, Bounded(e.left, env, depth + 1, steps - 1).steps);
  }

  lemma {:induction false} IfAgrees(e: Expr, env: Env, depth: nat, steps: nat)
    requires e.If? && depth <= MAX_DEPTH && steps > 0
    ensures Agrees(Bounded(e, env, depth, steps), Eval(e, env), depth, steps)
    decreases e, 0
  {
    var left, cond := Bounded(e.cond, env, depth + 1, steps - 1).steps, Eval(e.cond, env).result;
    BoundedAgrees(e.cond, env, depth + 1, steps - 1);
    if cond.Ok? && Truth(cond.value) {
      BoundedAgrees(e.then_, env, depth + 1, left);
    } else if cond.Ok? {
      BoundedAgrees(e.else_, env, depth + 1, left);
    }
  }

  lemma {:induction false} ChainAgrees(es: seq<Expr>, stop: bool, env: Env, depth: nat, steps: nat)
    ensures Agrees(BoundedChain(es, stop, env, depth, steps), EvalChain(es, stop, env), depth, steps)
    decreases es, 0
  {
    if es != [] {
      BoundedAgrees(es[0], env, depth, steps);
      ChainAgrees(es[1..], stop, env, depth, Bounded(es[0], env, depth, steps).steps);
    }
  }

  lemma {:induction false} ArgsAgree(es: seq<Expr>, env: Env, depth: nat, steps: nat)
    ensures Agrees(BoundedArgs(es, env, depth, steps), EvalArgs(es, env), depth, steps)
    decreases es, 0
  {
    if es != [] {
      BoundedAgrees(es[0], env, depth, steps);
      ArgsAgree(es[1..], env, depth, Bounded(es[0], env, depth, steps).steps);
    }
  }

  /** The unlimited evaluator knows no limit. */
  lemma {:induction false} NeverLimited(e: Expr, env: Env)
    ensures !Limited(Eval(e, env).result)
    decreases e, 1
  {
    match e
    case Lit(_) =>
    case Field(_) =>
    case And(all) => ChainNeverLimited(all, false, env);
    case Or(any) => ChainNeverLimited(any, true, env);
    case Not(of) => NeverLimited(of, env);
    case Cmp(_, lhs, rhs) => NeverLimited(lhs, env); NeverLimited(rhs, env);
    case Arith(_, lhs, rhs) => NeverLimited(lhs, env); NeverLimited(rhs, env);
    case If(cond, then_, else_) => NeverLimited(cond, env); NeverLimited(then_, env); NeverLimited(else_, env);
    case Call(_, args) => ArgsNeverLimited(args, env);
  }

  lemma {:induction false} ChainNeverLimited(es: seq<Expr>, stop: bool, env: Env)
    ensures !Limited(EvalChain(es, stop, env).result)
    decreases es, 0
  {
    if es != [] {
      NeverLimited(es[0], env);
      ChainNeverLimited(es[1..], stop, env);
    }
  }

  lemma {:induction false} ArgsNeverLimited(es: seq<Expr>, env: Env)
    ensures !Limited(EvalArgs(es, env).result)
    decreases es, 0
  {
    if es != [] {
      NeverLimited(es[0], env);
      ArgsNeverLimited(es[1..], env);
    }
  }

  /**
   `eval` is the unlimited evaluation, except that it fails with a limit error exactly when
   the unlimited one goes more than 32 levels down or visits more than 10000 nodes.
   */
  lemma EvaluatedExactly(e: Expr, env: Env)
    ensures var t := Eval(e, env);
            if t.cost.depth <= MAX_DEPTH && t.cost.visited <= STEP_BUDGET
            then Evaluated(e, env) == t.result
            else Limited(Evaluated(e, env))
  {
    BoundedAgrees(e, env, 0, STEP_BUDGET);
  }

  /** Any value `eval` returns is the unlimited value. */
  lemma BoundedRefinesUnbounded(e: Expr, env: Env)
    ensures Evaluated(e, env).Ok? ==> Evaluated(e, env) == Eval(e, env).result
  {
    EvaluatedExactly(e, env);
  }

  // ===== sizes that always fit =====

  function Size(e: Expr): nat
    decreases e, 1
  {
    1 + match e
        case Lit(_) => 0
        case Field(_) => 0
        case And(all) => Sizes(all)
        case Or(any) => Sizes(any)
        case Not(of) => Size(of)
        case Cmp(_, lhs, rhs) => Size(lhs) + Size(rhs)
        case Arith(_, lhs, rhs) => Size(lhs) + Size(rhs)
        case If(cond, then_, else_) => Size(cond) + Size(then_) + Size(else_)
        case Call(_, args) => Sizes(args)
  }

  function Sizes(es: seq<Expr>): nat
    decreases es, 0
  {
    if es == [] then 0 else Size(es[0]) + Sizes(es[1..])
  }

  /** The longest way down, in edges. */
  function Height(e: Expr): nat
    decreases e, 1
  {
    match e
    case Lit(_) => 0
    case Field(_) => 0
    case And(all) => Heights(all)
    case Or(any) => Heights(any)
    case Not(of) => 1 + Height(of)
    case Cmp(_, lhs, rhs) => 1 + Max(Height(lhs), Height(rhs))
    case Arith(_, lhs, rhs) => 1 + Max(Height(lhs), Height(rhs))
    case If(cond, then_, else_) => 1 + Max(Height(cond), Max(Height(then_), Height(else_)))
    case Call(_, args) => Heights(args)
  }

  function Heights(es: seq<Expr>): nat
    decreases es, 0
  {
    if es == [] then 0 else Max(1 + Height(es[0]), Heights(es[1..]))
  }

  predicate Within(c: Cost, size: nat, height: nat) {
    c.visited <= size && c.depth <= height
  }

  lemma {:induction false} CostWithin(e: Expr, env: Env)
    ensures Within(Eval(e, env).cost, Size(e), Height(e))
    decreases e, 1
  {
    match e
    case Lit(_) =>
    case Field(_) =>
    case And(all) => ChainCost(all, false, env);
    case Or(any) => ChainCost(any, true, env);
    case Not(of) => CostWithin(of, env);
    case Cmp(_, lhs, rhs) => CostWithin(lhs, env); CostWithin(rhs, env);
    case Arith(_, lhs, rhs) => CostWithin(lhs, env); CostWithin(rhs, env);
    case If(cond, then_, else_) => CostWithin(cond, env); CostWithin(then_, env); CostWithin(else_, env);
    case Call(_, args) => ArgsCost(args, env);
  }

  lemma {:induction false} ChainCost(es: seq<Expr>, stop: bool, env: Env)
    ensures var c := EvalChain(es, stop, env).cost;
            c.visited <= Sizes(es) && (c.visited == 0 || c.depth + 1 <= Heights(es))
    decreases es, 0
  {
    if es != [] {
      CostWithin(es[0], env);
      ChainCost(es[1..], stop, env);
      if EvalChain(es[1..], stop, env).cost.visited == 0 {
        EmptyChain(es[1..], stop, env);
      }
    }
  }

  lemma EmptyChain(es: seq<Expr>, stop: bool, env: Env)
    requires EvalChain(es, stop, env).cost.visited == 0
    ensures es == [] && EvalChain(es, stop, env).cost == NOTHING
  {
  }

  lemma {:induction false} ArgsCost(es: seq<Expr>, env: Env)
    ensures var c := EvalArgs(es, env).cost;
            c.visited <= Sizes(es) && (c.visited == 0 || c.depth + 1 <= Heights(es))
    decreases es, 0
  {
    if es != [] {
      CostWithin(es[0], env);
      ArgsCost(es[1..], env);
    }
  }

  /** The budget is only ever spent on nodes of the expression, also by a run that ends in a limit. */
  lemma {:induction false} StepsWithinNodes(e: Expr, env: Env, depth: nat, steps: nat)
    ensures steps - Bounded(e, env, depth, steps).steps <= Size(e)
    decreases e, 1
  {
    if depth <= MAX_DEPTH && steps > 0 {
      var left := steps - 1;
      match e
      case Lit(_) =>
      case Field(_) =>
      case And(all) => ChainStepsWithin(all, false, env, depth + 1, left);
      case Or(any) => ChainStepsWithin(any, true, env, depth + 1, left);
      case Not(of) => StepsWithinNodes(of, env, depth + 1, left);
      case Cmp(_, _, _) => CmpStepsWithin(e, env, depth, steps);
      case Arith(_, _, _) => ArithStepsWithin(e, env, depth, steps);
      case If(_, _, _) => IfStepsWithin(e, env, depth, steps);
      case Call(_, args) => ArgsStepsWithin(args, env, depth + 1, left);
    }
  }

  lemma {:induction false} CmpStepsWithin(e: Expr, env: Env, depth: nat, steps: nat)
    requires e.Cmp? && depth <= MAX_DEPTH && steps > 0
    ensures steps - Bounded(e, env, depth, steps).steps <= Size(e)
    decreases e, 0
  {
    StepsWithinNodes(e.lhs, env, depth + 1, steps - 1);
    StepsWithinNodes(e.rhs, env, depth + 1, Bounded(e.lhs, env, depth + 1, steps - 1).steps);
  }

  lemma {:induction false} ArithStepsWithin(e: Expr, env: Env, depth: nat, steps: nat)
    requires e.Arith? && depth <= MAX_DEPTH && steps > 0
    ensures steps - Bounded(e, env, depth, steps).steps <= Size(e)
    decreases e, 0
  {
    StepsWithinNodes(e.left, env, depth + 1, steps - 1);
    StepsWithinNodes(e.right, env, depth + 1, Bounded(e.left, env, depth + 1, steps - 1).steps);
  }

  lemma {:induction false} IfStepsWithin(e: Expr, env: Env, depth: nat, steps: nat)
    requires e.If? && depth <= MAX_DEPTH && steps > 0
    ensures steps - Bounded(e, env, depth, steps).steps <= Size(e)
    decreases e, 0
  {
    var after := Bounded(e.cond, env, depth + 1, steps - 1).steps;
    StepsWithinNodes(e.cond, env, depth + 1, steps - 1);
    StepsWithinNodes(e.then_, env, depth + 1, after);
    StepsWithinNodes(e.else_, env, depth + 1, after);
  }

  lemma {:induction false} ChainStepsWithin(es: seq<Expr>, stop: bool, env: Env, depth: nat, steps: nat)
    ensures steps - BoundedChain(es, stop, env, depth, steps).steps <= Sizes(es)
    decreases es, 0
  {
    if es != [] {
      StepsWithinNodes(es[0], env, depth, steps);
      ChainStepsWithin(es[1..], stop, env, depth, Bounded(es[0], env, depth, steps).steps);
    }
  }

  lemma {:induction false} ArgsStepsWithin(es: seq<Expr>, env: Env, depth: nat, steps: nat)
    ensures steps - BoundedArgs(es, env, depth, steps).steps <= Sizes(es)
    decreases es, 0
  {
    if es != [] {
      StepsWithinNodes(es[0], env, depth, steps);
      ArgsStepsWithin(es[1..], env, depth, Bounded(es[0], env, depth, steps).steps);
    }
  }

  /** Every expression of height at most 32 with at most 10000 nodes evaluates exactly. */
  lemma SmallExpressionsExact(e: Expr, env: Env)
    requires Height(e) <= MAX_DEPTH && Size(e) <= STEP_BUDGET
    ensures Evaluated(e, env) == Eval(e, env).result
  {
    CostWithin(e, env);
    EvaluatedExactly(e, env);
  }

  function Nots(n: nat): Expr {
    if n == 0 then Lit(Bool(true)) else Not(Nots(n - 1))
  }

  lemma {:induction false} NotsCost(n: nat, env: Env)
    ensures Eval(Nots(n), env).result.Ok? && Eval(Nots(n), env).cost == Cost(n + 1, n)
  {
    if n > 0 {
      NotsCost(n - 1, env);
    }
  }

  /** The depth limit is tight: 32 nested negations evaluate, 33 do not. */
  lemma DepthLimitTight(env: Env)
    ensures Evaluated(Nots(32), env).Ok? && Limited(Evaluated(Nots(33), env))
  {
    NotsCost(32, env);
    NotsCost(33, env);
    EvaluatedExactly(Nots(32), env);
    EvaluatedExactly(Nots(33), env);
  }

  // ===== what an evaluation can depend on =====

  /** The fields an expression names. */
  function Mentions(e: Expr): set<string>
    decreases e, 1
  {
    match e
    case Lit(_) => {}
    case Field(name) => {name}
    case And(all) => AllMentions(all)
    case Or(any) => AllMentions(any)
    case Not(of) => Mentions(of)
    case Cmp(_, lhs, rhs) => Mentions(lhs) + Mentions(rhs)
    case Arith(_, lhs, rhs) => Mentions(lhs) + Mentions(rhs)
    case If(cond, then_, else_) => Mentions(cond) + Mentions(then_) + Mentions(else_)
    case Call(_, args) => AllMentions(args)
  }

  function AllMentions(es: seq<Expr>): set<string>
    decreases es, 0
  {
    if es == [] then {} else Mentions(es[0]) + AllMentions(es[1..])
  }

  /** The two records read alike on `fields`. */
  ghost predicate ReadAlike(r: Record, r': Record, fields: set<string>) {
    forall f :: f in fields ==> Lookup(r, f) == Lookup(r', f)
  }

  /** Records that read alike on the fields an expression names give it one outcome. */
  lemma {:induction false} OnlyMentionedFields(e: Expr, env: Env, r: Record, depth: nat, steps: nat)
    requires ReadAlike(env.record, r, Mentions(e))
    ensures Bounded(e, env.(record := r), depth, steps) == Bounded(e, env, depth, steps)
    decreases e, 1
  {
    if depth <= MAX_DEPTH && steps > 0 {
      var left := steps - 1;
      match e
      case Lit(_) =>
      case Field(_) =>
      case And(all) => OnlyMentionedInChain(all, false, env, r, depth + 1, left);
      case Or(any) => OnlyMentionedInChain(any, true, env, r, depth + 1, left);
      case Not(of) => OnlyMentionedFields(of, env, r, depth + 1, left);
      case Cmp(_, _, _) => OnlyMentionedInCmp(e, env, r, depth, steps);
      case Arith(_, _, _) => OnlyMentionedInArith(e, env, r, depth, steps);
      case If(_, _, _) => OnlyMentionedInIf(e, env, r, depth, steps);
      case Call(_, args) => OnlyMentionedInArgs(args, env, r, depth + 1, left);
    }
  }

  lemma {:induction false} OnlyMentionedInCmp(e: Expr, env: Env, r: Record, depth: nat, steps: nat)
    requires e.Cmp? && depth <= MAX_DEPTH && steps > 0 && ReadAlike(env.record, r, Mentions(e))
    ensures Bounded(e, env.(record := r), depth, steps) == Bounded(e, env, depth, steps)
    decreases e, 0
  {
    OnlyMentionedFields(e.lhs, env, r, depth + 1, steps - 1);
    OnlyMentionedFields(e.rhs, env, r, depth + 1, Bounded(e.lhs, env, depth + 1, steps - 1).steps);
  }

  lemma {:induction false} OnlyMentionedInArith(e: Expr, env: Env, r: Record, depth: nat, steps: nat)
    requires e.Arith? && depth <= MAX_DEPTH && steps > 0 && ReadAlike(env.record, r, Mentions(e))
    ensures Bounded(e, env.(record := r), depth, steps) == Bounded(e, env, depth, steps)
    decreases e, 0
  {
    OnlyMentionedFields(e.left, env, r, depth + 1, steps - 1);
    OnlyMentionedFields(e.right, env, r, depth + 1, Bounded(e.left, env, depth + 1, steps - 1).steps);
  }

  lemma {:induction false} OnlyMentionedInIf(e: Expr, env: Env, r: Record, depth: nat, steps: nat)
    requires e.If? && depth <= MAX_DEPTH && steps > 0 && ReadAlike(env.record, r, Mentions(e))
    ensures Bounded(e, env.(record := r), depth, steps) == Bounded(e, env, depth, steps)
    decreases e, 0
  {
    var after := Bounded(e.cond, env, depth + 1, steps - 1).steps;
    OnlyMentionedFields(e.cond, env, r, depth + 1, steps - 1);
    OnlyMentionedFields(e.then_, env, r, depth + 1, after);
    OnlyMentionedFields(e.else_, env, r, depth + 1, after);
  }

  lemma {:induction false} OnlyMentionedInChain(es: seq<Expr>, stop: bool, env: Env, r: Record, depth: nat, steps: nat)
    requires ReadAlike(env.record, r, AllMentions(es))
    ensures BoundedChain(es, stop, env.(record := r), depth, steps) == BoundedChain(es, stop, env, depth, steps)
    decreases es, 0
  {
    if es != [] {
      OnlyMentionedFields(es[0], env, r, depth, steps);
      OnlyMentionedInChain(es[1..], stop, env, r, depth, Bounded(es[0], env, depth, steps).steps);
    }
  }

  lemma {:induction false} OnlyMentionedInArgs(es: seq<Expr>, env: Env, r: Record, depth: nat, steps: nat)
    requires ReadAlike(env.record, r, AllMentions(es))
    ensures BoundedArgs(es, env.(record := r), depth, steps) == BoundedArgs(es, env, depth, steps)
    decreases es, 0
  {
    if es != [] {
      OnlyMentionedFields(es[0], env, r, depth, steps);
      OnlyMentionedInArgs(es[1..], env, r, depth, Bounded(es[0], env, depth, steps).steps);
    }
  }
}
