/** What each form of an expression evaluates to, in terms of what its parts evaluate to. */
module ExpressionMeaning {
  import opened Common
  import opened Expressions

  /** What an expression evaluates to without the limits. */
  function Outcome(e: Expr, env: Env): Result<Value, Stop> {
    Eval(e, env).result
  }

  // ===== truth =====

  /** False are null, false, zero and the empty string; all else is true. */
  predicate IsFalsy(v: Value) {
    v == Null || v == Bool(false) || v == Num(0.0) || v == Str("")
  }

  lemma TruthIsNotFalsy(v: Value)
    ensures Truth(v) <==> !IsFalsy(v)
  {
  }

  ghost predicate Passes(e: Expr, env: Env) {
    Outcome(e, env).Ok? && !IsFalsy(Outcome(e, env).value)
  }

  ghost predicate Fails(e: Expr, env: Env) {
    Outcome(e, env).Ok? && IsFalsy(Outcome(e, env).value)
  }

  // ===== conjunction and disjunction =====

  /** All operands before the `i`-th pass, as `And` needs to get there; or all fail, as `Or` does. */
  ghost predicate Reached(es: seq<Expr>, env: Env, stop: bool, i: nat)
    requires i <= |es|
  {
    forall k :: 0 <= k < i ==> if stop then Fails(es[k], env) else Passes(es[k], env)
  }

  lemma {:induction false} ChainStops(es: seq<Expr>, stop: bool, env: Env, i: nat)
    requires i <= |es| && Reached(es, env, stop, i)
    ensures i == |es| ==> EvalChain(es, stop, env).result == Ok(Bool(!stop))
    ensures i < |es| && Outcome(es[i], env).Err? ==> EvalChain(es, stop, env).result == Outcome(es[i], env)
    ensures i < |es| && (if stop then Passes(es[i], env) else Fails(es[i], env)) ==>
      EvalChain(es, stop, env).result == Ok(Bool(stop))
    decreases |es|
  {
    if es != [] {
      assert i > 0 ==> if stop then Fails(es[0], env) else Passes(es[0], env);
      if i > 0 {
        assert forall k :: 0 <= k < i - 1 ==> es[1..][k] == es[k + 1];
        ChainStops(es[1..], stop, env, i - 1);
      }
    }
  }

  /**
   `And` is true when all its operands are, and otherwise is decided by the first that is not:
   false if that is falsy, its error if it has one. Operands after it are not evaluated.
   */
  lemma AndMeans(es: seq<Expr>, env: Env, i: nat)
    requires i <= |es| && forall k :: 0 <= k < i ==> Passes(es[k], env)
    ensures i == |es| ==> Outcome(And(es), env) == Ok(Bool(true))
    ensures i < |es| && Fails(es[i], env) ==> Outcome(And(es), env) == Ok(Bool(false))
    ensures i < |es| && Outcome(es[i], env).Err? ==> Outcome(And(es), env) == Outcome(es[i], env)
  {
    ChainStops(es, false, env, i);
  }

  /** `Or` is false when all its operands are, and otherwise is decided by the first that is not. */
  lemma OrMeans(es: seq<Expr>, env: Env, i: nat)
    requires i <= |es| && forall k :: 0 <= k < i ==> Fails(es[k], env)
    ensures i == |es| ==> Outcome(Or(es), env) == Ok(Bool(false))
    ensures i < |es| && Passes(es[i], env) ==> Outcome(Or(es), env) == Ok(Bool(true))
    ensures i < |es| && Outcome(es[i], env).Err? ==> Outcome(Or(es), env) == Outcome(es[i], env)
  {
    ChainStops(es, true, env, i);
  }

  // ===== fields, negation, choice and calls =====

  /** A field is the record's value, null if it has none. */
  lemma FieldMeans(name: string, env: Env)
    ensures name in env.record ==> Outcome(Field(name), env) == Ok(env.record[name])
    ensures name !in env.record ==> Outcome(Field(name), env) == Ok(Null)
  {
  }

  lemma NotMeans(e: Expr, env: Env)
    ensures Passes(e, env) ==> Outcome(Not(e), env) == Ok(Bool(false))
    ensures Fails(e, env) ==> Outcome(Not(e), env) == Ok(Bool(true))
    ensures Outcome(e, env).Err? ==> Outcome(Not(e), env) == Outcome(e, env)
  {
  }

  lemma IfMeans(cond: Expr, a: Expr, b: Expr, env: Env)
    ensures Passes(cond, env) ==> Outcome(If(cond, a, b), env) == Outcome(a, env)
    ensures Fails(cond, env) ==> Outcome(If(cond, a, b), env) == Outcome(b, env)
    ensures Outcome(cond, env).Err? ==> Outcome(If(cond, a, b), env) == Outcome(cond, env)
  {
  }

  lemma {:induction false} ArgsMean(es: seq<Expr>, env: Env, vs: seq<Value>)
    requires |vs| <= |es| && forall k :: 0 <= k < |vs| ==> Outcome(es[k], env) == Ok(vs[k])
    ensures |vs| == |es| ==> EvalArgs(es, env).result == Ok(vs)
    ensures |vs| < |es| && Outcome(es[|vs|], env).Err? ==>
      EvalArgs(es, env).result == Err(Outcome(es[|vs|], env).error)
    decreases |es|
  {
    if es != [] && vs != [] {
      assert Outcome(es[0], env) == Ok(vs[0]);
      ArgsMean(es[1..], env, vs[1..]);
      assert [vs[0]] + vs[1..] == vs;
    }
  }

  /**
   A call hands the function its arguments in order, and fails at the first that fails or if there is no such
   function.
   */
  lemma CallMeans(fn: string, es: seq<Expr>, env: Env, vs: seq<Value>)
    requires |vs| <= |es| && forall k :: 0 <= k < |vs| ==> Outcome(es[k], env) == Ok(vs[k])
    ensures |vs| < |es| && Outcome(es[|vs|], env).Err? ==> Outcome(Call(fn, es), env) == Outcome(es[|vs|], env)
    ensures |vs| == |es| && fn !in env.functions ==> Outcome(Call(fn, es), env) == Err(Fault)
    ensures |vs| == |es| && fn in env.functions ==>
      var f := env.functions[fn];
      Outcome(Call(fn, es), env) == match f(vs) case Some(v) => Ok(v) case None => Err(Fault)
  {
    ArgsMean(es, env, vs);
  }

  // ===== comparison =====

  /** `a` comes before `b`: where they first differ it has the smaller character, or it ends there. */
  ghost predicate Precedes(a: string, b: string) {
    exists n :: 0 <= n <= |a| && n < |b| && a[..n] == b[..n] && (n == |a| || a[n] < b[n])
  }

  lemma {:induction false} TextOrder(a: string, b: string)
    ensures CompareText(a, b) == Equal <==> a == b
    ensures CompareText(a, b) == Less <==> Precedes(a, b)
    ensures CompareText(a, b) == Greater <==> Precedes(b, a)
    decreases |a|
  {
    if a != b && a != "" && b != "" && a[0] == b[0] {
      TextOrder(a[1..], b[1..]);
      PrecedesNext(a, b);
      PrecedesNext(b, a);
      assert [a[0]] + a[1..] == a && [b[0]] + b[1..] == b;
    } else if a != b {
      FirstDecides(a, b);
      FirstDecides(b, a);
    } else {
      NotBefore(a);
    }
  }

  lemma PrecedesNext(a: string, b: string)
    requires a != "" && b != "" && a[0] == b[0]
    ensures Precedes(a, b) <==> Precedes(a[1..], b[1..])
  {
    if n :| 0 <= n <= |a| && n < |b| && a[..n] == b[..n] && (n == |a| || a[n] < b[n]) {
      assert n > 0;
      assert a[1..][..n - 1] == a[..n][1..] && b[1..][..n - 1] == b[..n][1..];
      assert 0 <= n - 1 <= |a[1..]| && n - 1 < |b[1..]|;
    }
    if n :| 0 <= n <= |a[1..]| && n < |b[1..]| && a[1..][..n] == b[1..][..n]
            && (n == |a[1..]| || a[1..][n] < b[1..][n]) {
      assert a[..n + 1] == [a[0]] + a[1..][..n] && b[..n + 1] == [b[0]] + b[1..][..n];
      assert 0 <= n + 1 <= |a| && n + 1 < |b|;
    }
  }

  lemma FirstDecides(a: string, b: string)
    requires a != b && (a == "" || b == "" || a[0] != b[0])
    ensures Precedes(a, b) <==> b != "" && (a == "" || a[0] < b[0])
  {
    if b != "" && (a == "" || a[0] < b[0]) {
      assert a[..0] == b[..0];
    }
    PrefixesAgree(a, b);
  }

  lemma PrefixesAgree(a: string, b: string)
    ensures forall n :: 0 < n <= |a| && n <= |b| && a[..n] == b[..n] ==> a[0] == b[0]
  {
    forall n | 0 < n <= |a| && n <= |b| && a[..n] == b[..n]
      ensures a[0] == b[0]
    {
      assert a[..n][0] == a[0] && b[..n][0] == b[0];
    }
  }

  lemma NotBefore(a: string)
    ensures !Precedes(a, a)
  {
  }

  /** What each kind of comparison says of the order of two values. */
  ghost predicate Says(kind: string, before: bool, same: bool, verdict: bool) {
    match kind
    case "eq" => verdict == same
    case "ne" => verdict == !same
    case "lt" => verdict == before
    case "le" => verdict == (before || same)
    case "gt" => verdict == !(before || same)
    case "ge" => verdict == !before
    case _ => false
  }

  predicate IsComparison(kind: string) {
    kind in ["eq", "ne", "lt", "le", "gt", "ge"]
  }

  /** Which of two values of a type comes first, and whether they are the same. */
  ghost predicate Ordered(l: Value, r: Value, before: bool, same: bool) {
    match (l, r)
    case (Num(a), Num(b)) => before == (a < b) && same == (a == b)
    case (Str(a), Str(b)) => before == Precedes(a, b) && same == (a == b)
    case (Bool(a), Bool(b)) => before == (!a && b) && same == (a == b)
    case _ => false
  }

  /**
   Numbers compare by size, strings by their characters, false before true; null matches
   nothing; values of different types, arrays and objects do not compare, nor does an unknown kind.
   */
  lemma CompareMeans(kind: string, l: Value, r: Value)
    ensures l == Null || r == Null ==> Compare(kind, l, r) == Ok(Bool(false))
    ensures l != Null && r != Null && !IsComparison(kind) ==> Compare(kind, l, r) == Err(Fault)
    ensures l != Null && r != Null && (forall before, same :: !Ordered(l, r, before, same)) ==>
      Compare(kind, l, r) == Err(Fault)
    ensures forall before, same, verdict :: Ordered(l, r, before, same) && Says(kind, before, same, verdict) ==>
      Compare(kind, l, r) == Ok(Bool(verdict))
  {
    if l.Str? && r.Str? {
      TextOrder(l.s, r.s);
    }
    forall before, same, verdict | Ordered(l, r, before, same) && Says(kind, before, same, verdict)
      ensures Compare(kind, l, r) == Ok(Bool(verdict))
    {
    }
    if OrderingOf(l, r).Some? {
      OrdersSome(l, r);
    }
  }

  lemma OrdersSome(l: Value, r: Value)
    requires OrderingOf(l, r).Some?
    ensures exists before, same :: Ordered(l, r, before, same)
  {
    match (l, r)
    case (Num(a), Num(b)) => assert Ordered(l, r, a < b, a == b);
    case (Str(a), Str(b)) =>
      var before := CompareText(a, b) == Less;
      TextOrder(a, b);
      assert Ordered(l, r, before, a == b);
    case (Bool(a), Bool(b)) => assert Ordered(l, r, !a && b, a == b);
    case _ =>
  }

  /** A comparison evaluates its left operand, then its right one, and compares what they gave. */
  lemma CmpMeans(kind: string, a: Expr, b: Expr, env: Env)
    ensures Outcome(a, env).Err? ==> Outcome(Cmp(kind, a, b), env) == Outcome(a, env)
    ensures Outcome(a, env).Ok? && Outcome(b, env).Err? ==> Outcome(Cmp(kind, a, b), env) == Outcome(b, env)
    ensures Outcome(a, env).Ok? && Outcome(b, env).Ok? ==>
      Outcome(Cmp(kind, a, b), env) == Compare(kind, Outcome(a, env).value, Outcome(b, env).value)
  {
  }

  // ===== arithmetic =====

  /** The rounded number, or the failure where it overflows. */
  ghost predicate Gives(env: Env, o: Result<Value, Stop>, exact: real) {
    var round := env.rounded;
    o == match round(exact) case Some(n) => Ok(Num(n)) case None => Err(Fault)
  }

  /**
   Arithmetic on numbers is rounded, and fails where that overflows; null makes it null; anything
   else, a division by zero or an unknown operation fails.
   */
  lemma CalculateMeans(op: string, l: Value, r: Value, env: Env)
    ensures l == Null || r == Null ==> Calculate(op, l, r, env) == Ok(Null)
    ensures l != Null && r != Null && !(l.Num? && r.Num?) ==> Calculate(op, l, r, env) == Err(Fault)
    ensures l.Num? && r.Num? && op !in ["add", "sub", "mul", "div"] ==> Calculate(op, l, r, env) == Err(Fault)
    ensures l.Num? && r.Num? && op == "div" && r.n == 0.0 ==> Calculate(op, l, r, env) == Err(Fault)
    ensures l.Num? && r.Num? ==>
      && (op == "add" ==> Gives(env, Calculate(op, l, r, env), l.n + r.n))
      && (op == "sub" ==> Gives(env, Calculate(op, l, r, env), l.n - r.n))
      && (op == "div" && r.n != 0.0 ==> Gives(env, Calculate(op, l, r, env), l.n / r.n))
  {
  }

  /** Where rounding changes nothing the results are exact. */
  lemma CalculatesExactly(op: string, a: real, b: real, env: Env)
    requires var round := env.rounded; forall x :: round(x) == Some(x)
    requires op in ["add", "sub", "mul"] || (op == "div" && b != 0.0)
    ensures var o := Calculate(op, Num(a), Num(b), env);
      && o.Ok? && o.value.Num?
      && (op == "add" ==> o.value.n == a + b) && (op == "sub" ==> o.value.n == a - b)
      && (op == "mul" ==> o.value.n == a * b) && (op == "div" ==> o.value.n == a / b)
  {
  }

  lemma ArithMeans(op: string, a: Expr, b: Expr, env: Env)
    ensures Outcome(a, env).Err? ==> Outcome(Arith(op, a, b), env) == Outcome(a, env)
    ensures Outcome(a, env).Ok? && Outcome(b, env).Err? ==> Outcome(Arith(op, a, b), env) == Outcome(b, env)
    ensures Outcome(a, env).Ok? && Outcome(b, env).Ok? ==>
      Outcome(Arith(op, a, b), env) == Calculate(op, Outcome(a, env).value, Outcome(b, env).value, env)
  {
  }
}
