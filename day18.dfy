/** Day 18: arithmetic on a row of literals, `+`, `*` and parenthesised
    groups, evaluated once strictly left to right and once with `+` binding
    tighter than `*`. */
module Day18 {
  import opened Text
  import opened Seqs

  datatype Op = Add | Mul

  /** One token of a row: a literal, an operator or a parenthesised group. */
  datatype LExpr = Lit(value: nat) | OpToken(op: Op) | Nested(inner: Expr)

  datatype Expr = Expr(row: seq<LExpr>)

  function Apply(op: Op, a: nat, b: nat): nat
  {
    match op
    case Add => a + b
    case Mul => a * b
  }

  // The expressions both evaluators are meant for

  /** Operands and operators alternating, an operand first and last, and
      every group well formed in turn. */
  predicate RowWellFormed(row: seq<LExpr>)
    decreases row
  {
    |row| >= 1 && IsOperand(row[|row| - 1]) &&
    (|row| == 1 || (|row| >= 3 && row[|row| - 2].OpToken? && RowWellFormed(row[..|row| - 2])))
  }

  predicate IsOperand(x: LExpr)
    decreases x
  {
    x.Lit? || (x.Nested? && RowWellFormed(x.inner.row))
  }

  predicate WellFormed(e: Expr)
  {
    RowWellFormed(e.row)
  }

  // Left to right, + and * alike

  /** The value of a well-formed row read left to right, each operator
      applied to everything before it: ((a op b) op c) ... */
  function LeftToRight(row: seq<LExpr>): nat
    requires RowWellFormed(row)
    decreases row, 0
  {
    if |row| == 1 then LeftOperand(row[0])
    else
      Apply(row[|row| - 2].op, LeftToRight(row[..|row| - 2]), LeftOperand(row[|row| - 1]))
  }

  function LeftOperand(x: LExpr): nat
    requires IsOperand(x)
    decreases x
  {
    if x.Lit? then x.value else LeftToRight(x.inner.row)
  }

  /** What `LExpr::eval` computes: `None` for an operator, where the source reaches
      `unreachable!()`. */
  function StrictToken(x: LExpr): Option<nat>
    decreases x
  {
    match x
    case Lit(n) => Some(n)
    case OpToken(_) => None
    case Nested(e) => StrictFrom(e.row, 0, 0)
  }

  /** What the loop of `Expr::eval` computes from token `i` with the result so far `res`:
      an operator takes the next token as its right operand, any other token
      replaces the result. `None` where a `pop` finds the row empty or an
      operator is evaluated. */
  function StrictFrom(row: seq<LExpr>, i: nat, res: nat): Option<nat>
    requires i <= |row|
    decreases row, |row| - i
  {
    if i == |row| then Some(res)
    else if row[i].OpToken? then
      if i + 1 == |row| then None
      else
        match StrictToken(row[i + 1])
        case None => None
        case Some(v) => StrictFrom(row, i + 2, Apply(row[i].op, res, v))
    else
      match StrictToken(row[i])
      case None => None
      case Some(v) => StrictFrom(row, i + 1, v)
  }

  /** What `Expr::eval` computes. */
  function Strict(e: Expr): Option<nat>
  {
    StrictFrom(e.row, 0, 0)
  }

  /** After the first `i` tokens of a well-formed row the loop holds the
      value of those tokens, and so ends with the value of the row. */
  lemma {:induction false} StrictFromCorrect(row: seq<LExpr>, i: nat)
    requires RowWellFormed(row) && i <= |row| && i % 2 == 1
    ensures RowWellFormed(row[..i])
    ensures StrictFrom(row, i, LeftToRight(row[..i])) == Some(LeftToRight(row))
    decreases row, |row| - i
  {
    WellFormedTake(row, i);
    if i == |row| {
      assert row[..i] == row;
    } else {
      WellFormedOdd(row);
      WellFormedTake(row, i + 2);
      var p := row[..i + 2];
      assert p[..|p| - 2] == row[..i];
      assert p[|p| - 2] == row[i] && p[|p| - 1] == row[i + 1];
      StrictTokenCorrect(row[i + 1]);
      StrictFromCorrect(row, i + 2);
    }
  }

  /** An odd prefix of a well-formed row is well formed. */
  lemma {:induction false} WellFormedTake(row: seq<LExpr>, i: nat)
    requires RowWellFormed(row) && i <= |row| && i % 2 == 1
    ensures RowWellFormed(row[..i])
    decreases |row|
  {
    if i == |row| {
      assert row[..i] == row;
    } else {
      WellFormedOdd(row);
      var p := row[..|row| - 2];
      assert p[..i] == row[..i];
      WellFormedTake(p, i);
    }
  }

  lemma {:induction false} WellFormedOdd(row: seq<LExpr>)
    requires RowWellFormed(row)
    ensures |row| % 2 == 1
    decreases |row|
  {
    if |row| > 1 {
      WellFormedOdd(row[..|row| - 2]);
    }
  }

  lemma {:induction false} StrictTokenCorrect(x: LExpr)
    requires IsOperand(x)
    ensures StrictToken(x) == Some(LeftOperand(x))
    decreases x, 1
  {
    if x.Nested? {
      StrictCorrect(x.inner);
    }
  }

  /** `eval` evaluates a well-formed expression left to right, `+` and `*`
      at equal precedence, groups first. */
  lemma {:induction false} StrictCorrect(e: Expr)
    requires WellFormed(e)
    ensures Strict(e) == Some(LeftToRight(e.row))
    decreases e, 0
  {
    var row := e.row;
    WellFormedOdd(row);
    WellFormedTake(row, 1);
    assert row[..1][0] == row[0];
    StrictTokenCorrect(row[0]);
    assert LeftToRight(row[..1]) == LeftOperand(row[0]);
    StrictFromCorrect(row, 1);
  }

  /** `Expr::eval`. The source reverses the row and pops from the end, so the
      tokens are taken front to back: here by the index `i`. */
  method Eval(e: Expr) returns (r: Option<nat>)
    ensures r == Strict(e)
    decreases e, 1
  {
    var res: nat := 0;
    var i := 0;
    while i < |e.row|
      invariant i <= |e.row|
      invariant StrictFrom(e.row, i, res) == Strict(e)
      decreases |e.row| - i
    {
      var token := e.row[i];
      if token.OpToken? {
        if i + 1 == |e.row| {
          return None;
        }
        var next := EvalToken(e.row[i + 1]);
        if next.None? {
          return None;
        }
        res := Apply(token.op, res, next.value);
        i := i + 2;
      } else {
        var value := EvalToken(token);
        if value.None? {
          return None;
        }
        res := value.value;
        i := i + 1;
      }
    }
    return Some(res);
  }

  /** `LExpr::eval`. */
  method EvalToken(x: LExpr) returns (r: Option<nat>)
    ensures r == StrictToken(x)
    decreases x, 2
  {
    match x
    case Lit(n) => r := Some(n);
    case OpToken(_) => r := None;
    case Nested(e) => r := Eval(e);
  }

  // + before *

  /** The sums of the `+`-separated runs of a well-formed row, left to right:
      the factors that `+` binding tighter than `*` multiplies. */
  function Sums(row: seq<LExpr>): (s: seq<int>)
    requires RowWellFormed(row)
    ensures |s| >= 1
    decreases row, 0
  {
    if |row| == 1 then [AddFirstOperand(row[0])]
    else
      var s := Sums(row[..|row| - 2]);
      var v := AddFirstOperand(row[|row| - 1]);
      if row[|row| - 2].op == Add then AddToLast(s, v) else s + [v]
  }

  /** `s` with `v` added to its last element. */
  function AddToLast(s: seq<int>, v: int): (r: seq<int>)
    requires |s| >= 1
    ensures |r| == |s|
  {
    s[..|s| - 1] + [s[|s| - 1] + v]
  }

  lemma {:induction false} AddToLastZero(s: seq<int>)
    requires |s| >= 1
    ensures AddToLast(s, 0) == s
  {
  }

  lemma {:induction false} AddToLastTwice(s: seq<int>, a: int, b: int)
    requires |s| >= 1
    ensures AddToLast(AddToLast(s, a), b) == AddToLast(s, a + b)
  {
    assert AddToLast(s, a)[..|s| - 1] == s[..|s| - 1];
  }

  lemma {:induction false} AddToLastSnoc(t: seq<int>, v: int)
    ensures AddToLast(t + [0], v) == t + [v]
  {
    assert (t + [0])[..|t|] == t;
  }

  function AddFirstOperand(x: LExpr): int
    requires IsOperand(x)
    decreases x
  {
    if x.Lit? then x.value else AddFirst(x.inner.row)
  }

  /** The value of a well-formed row with `+` binding tighter than `*`. */
  function AddFirst(row: seq<LExpr>): int
    requires RowWellFormed(row)
    decreases row, 1
  {
    Product(Sums(row))
  }

  /** What `LExpr::eval_add_precedence` computes. */
  function AddFirstToken(x: LExpr): Option<int>
    decreases x
  {
    match x
    case Lit(n) => Some(n)
    case OpToken(_) => None
    case Nested(e) => AddFirstRun(e.row, 0, [])
  }

  /** What the loop of `Expr::eval_add_precedence` computes on the tokens
      left in `row`, popped from its end: `+` adds the token before it to the
      result, `*` pushes the result on the stack, any other token replaces the
      result; at the end the result joins the stack and the stack is
      multiplied. */
  function AddFirstRun(row: seq<LExpr>, res: int, stack: seq<int>): Option<int>
    decreases row
  {
    if row == [] then Some(Product(stack + [res]))
    else
      var rest := row[..|row| - 1];
      match row[|row| - 1]
      case OpToken(Add) =>
        if rest == [] then None
        else
          (match AddFirstToken(rest[|rest| - 1])
           case None => None
           case Some(v) => AddFirstRun(rest[..|rest| - 1], res + v, stack))
      case OpToken(Mul) => AddFirstRun(rest, res, stack + [res])
      case other =>
        match AddFirstToken(other)
        case None => None
        case Some(v) => AddFirstRun(rest, v, stack)
  }

  /** What `Expr::eval_add_precedence` computes. */
  function Advanced(e: Expr): Option<int>
  {
    AddFirstRun(e.row, 0, [])
  }

  /** Replacing the last operand of a well-formed row keeps it well formed. */
  lemma {:induction false} ReplaceLast(u: seq<LExpr>, x: LExpr, y: LExpr)
    requires RowWellFormed(u + [x]) && IsOperand(y)
    ensures RowWellFormed(u + [y])
  {
    if u != [] {
      assert (u + [x])[..|u| - 1] == (u + [y])[..|u| - 1];
    }
  }

  /** `Sums` of a row taken apart at its last operator. */
  lemma {:induction false} SumsSnoc(p: seq<LExpr>, op: LExpr, x: LExpr)
    requires RowWellFormed(p + [op, x])
    ensures RowWellFormed(p) && op.OpToken? && IsOperand(x)
    ensures Sums(p + [op, x]) ==
      if op.op == Add then AddToLast(Sums(p), AddFirstOperand(x)) else Sums(p) + [AddFirstOperand(x)]
  {
    var row := p + [op, x];
    assert row[..|row| - 2] == p;
    assert row[|row| - 2] == op && row[|row| - 1] == x;
  }

  /** Only the last operand's value matters to the last sum. */
  lemma {:induction false} SumsLast(u: seq<LExpr>, x: LExpr)
    requires RowWellFormed(u + [x])
    ensures RowWellFormed(u + [Lit(0)]) && IsOperand(x)
    ensures Sums(u + [x]) == AddToLast(Sums(u + [Lit(0)]), AddFirstOperand(x))
  {
    assert (u + [x])[|u|] == x;
    ReplaceLast(u, x, Lit(0));
    if u == [] {
      SumsSingle(x);
    } else {
      var p, op := u[..|u| - 1], u[|u| - 1];
      assert u + [x] == p + [op, x];
      assert u + [Lit(0)] == p + [op, Lit(0)];
      SumsLastAfter(p, op, x);
    }
  }

  lemma {:induction false} SumsSingle(x: LExpr)
    requires IsOperand(x)
    ensures RowWellFormed([x]) && RowWellFormed([Lit(0)])
    ensures Sums([x]) == AddToLast(Sums([Lit(0)]), AddFirstOperand(x))
  {
    assert Sums([x]) == [AddFirstOperand(x)];
    assert Sums([Lit(0)]) == [0];
  }

  lemma {:induction false} SumsLastAfter(p: seq<LExpr>, op: LExpr, x: LExpr)
    requires RowWellFormed(p + [op, x]) && RowWellFormed(p + [op, Lit(0)])
    ensures Sums(p + [op, x]) == AddToLast(Sums(p + [op, Lit(0)]), AddFirstOperand(x))
  {
    SumsSnoc(p, op, x);
    SumsSnoc(p, op, Lit(0));
    AddToLastZero(Sums(p));
    AddToLastSnoc(Sums(p), AddFirstOperand(x));
  }

  /** One `+` step of the loop: the operand before it is added to the result. */
  lemma {:induction false} RunAdd(u: seq<LExpr>, a: LExpr, v: int, res: int, stack: seq<int>)
    requires AddFirstToken(a) == Some(v)
    ensures AddFirstRun(u + [a, OpToken(Add)], res, stack) == AddFirstRun(u, res + v, stack)
  {
    var w := u + [a, OpToken(Add)];
    assert w[..|w| - 1] == u + [a];
    assert (u + [a])[..|u|] == u;
  }

  /** An operand at the end of the tokens left becomes the result. */
  lemma {:induction false} RunOperand(u: seq<LExpr>, a: LExpr, v: int, res: int, stack: seq<int>)
    requires AddFirstToken(a) == Some(v) && !a.OpToken?
    ensures AddFirstRun(u + [a], res, stack) == AddFirstRun(u, v, stack)
  {
    assert (u + [a])[..|u|] == u;
  }

  /** One `*` step of the loop, and the operand before it: the result is
      pushed and the operand becomes the result. */
  lemma {:induction false} RunMul(u: seq<LExpr>, a: LExpr, v: int, res: int, stack: seq<int>)
    requires AddFirstToken(a) == Some(v) && !a.OpToken?
    ensures AddFirstRun(u + [a, OpToken(Mul)], res, stack) == AddFirstRun(u, v, stack + [res])
  {
    var w := u + [a, OpToken(Mul)];
    assert w[..|w| - 1] == u + [a];
    assert (u + [a])[..|u|] == u;
  }

  /** The last operator and operand of the tokens left, and what `Sums`
      makes of them. */
  lemma {:induction false} Decompose(w: seq<LExpr>)
    requires RowWellFormed(w + [Lit(0)]) && w != []
    ensures |w| >= 2
    ensures var u, a, op := w[..|w| - 2], w[|w| - 2], w[|w| - 1];
      w == u + [a, op] && op.OpToken? && IsOperand(a) && !a.OpToken? &&
      RowWellFormed(u + [a]) && RowWellFormed(u + [Lit(0)]) &&
      AddFirstToken(a) == Some(AddFirstOperand(a)) &&
      Sums(w + [Lit(0)]) == (if op.op == Add then AddToLast(Sums(u + [a]), 0) else Sums(u + [a]) + [0]) &&
      Sums(u + [a]) == AddToLast(Sums(u + [Lit(0)]), AddFirstOperand(a))
    decreases w, 0
  {
    var row := w + [Lit(0)];
    var u, a, op := w[..|w| - 2], w[|w| - 2], w[|w| - 1];
    assert w == u + [a, op];
    assert row == (u + [a]) + [op, Lit(0)];
    SumsSnoc(u + [a], op, Lit(0));
    SumsLast(u, a);
    AddFirstTokenCorrect(a);
  }

  /** The loop with `res` the partial sum of the run it is in and `stack` the
      factors already complete ends with `stack`'s product times the product
      of the sums of the tokens left, `res` added to their last sum. */
  lemma {:induction false} AddFirstRunCorrect(w: seq<LExpr>, res: int, stack: seq<int>)
    requires RowWellFormed(w + [Lit(0)])
    ensures AddFirstRun(w, res, stack) == Some(Product(stack) * Product(AddToLast(Sums(w + [Lit(0)]), res)))
    decreases w, 1
  {
    if w == [] {
      assert w + [Lit(0)] == [Lit(0)];
      RunDone(res, stack);
    } else {
      Decompose(w);
      var u, a, op := w[..|w| - 2], w[|w| - 2], w[|w| - 1];
      var va := AddFirstOperand(a);
      var s0, sa, sw := Sums(u + [Lit(0)]), Sums(u + [a]), Sums(w + [Lit(0)]);
      assert sa == AddToLast(s0, va);
      if op.op == Add {
        assert sw == AddToLast(sa, 0);
        RunAdd(u, a, va, res, stack);
        AddFirstRunCorrect(u, res + va, stack);
        AddCase(AddFirstRun(w, res, stack), AddFirstRun(u, res + va, stack), Product(stack), s0, sw, va, res);
      } else {
        assert sw == sa + [0];
        RunMul(u, a, va, res, stack);
        AddFirstRunCorrect(u, va, stack + [res]);
        MulCase(AddFirstRun(w, res, stack), AddFirstRun(u, va, stack + [res]), stack, s0, sa, sw, va, res);
      }
    }
  }

  /** The conclusion after a `+`, on the values alone. */
  lemma {:induction false} AddCase(runW: Option<int>, runU: Option<int>, p: int,
                                   s0: seq<int>, sw: seq<int>, va: int, res: int)
    requires |s0| >= 1 && sw == AddToLast(AddToLast(s0, va), 0)
    requires runW == runU && runU == Some(p * Product(AddToLast(s0, res + va)))
    ensures runW == Some(p * Product(AddToLast(sw, res)))
  {
    AddAlgebra(s0, va, res);
  }

  /** The conclusion after a `*`, on the values alone. */
  lemma {:induction false} MulCase(runW: Option<int>, runU: Option<int>, stack: seq<int>,
                                   s0: seq<int>, sa: seq<int>, sw: seq<int>, va: int, res: int)
    requires |s0| >= 1 && sa == AddToLast(s0, va) && sw == sa + [0]
    requires runW == runU && runU == Some(Product(stack + [res]) * Product(sa))
    ensures runW == Some(Product(stack) * Product(AddToLast(sw, res)))
  {
    MulAlgebra(stack, sa, res);
  }

  /** The loop's end: the result joins the stack, whose product is taken. */
  lemma {:induction false} RunDone(res: int, stack: seq<int>)
    ensures RowWellFormed([Lit(0)])
    ensures AddFirstRun([], res, stack) == Some(Product(stack) * Product(AddToLast(Sums([Lit(0)]), res)))
  {
    ProductAppend(stack, [res]);
    assert Sums([Lit(0)]) == [0];
    AddToLastSnoc([], res);
    assert Product([res]) == res;
  }

  /** The sums after a `+`: the operand before it joins the last sum. */
  lemma {:induction false} AddAlgebra(s0: seq<int>, va: int, res: int)
    requires |s0| >= 1
    ensures AddToLast(AddToLast(AddToLast(s0, va), 0), res) == AddToLast(s0, res + va)
  {
    AddToLastZero(AddToLast(s0, va));
    AddToLastTwice(s0, va, res);
  }

  /** The product after a `*`: the result pushed on the stack is the sum the
      `*` ends. */
  lemma {:induction false} MulAlgebra(stack: seq<int>, sa: seq<int>, res: int)
    ensures Product(stack + [res]) * Product(sa) == Product(stack) * Product(AddToLast(sa + [0], res))
  {
    ProductAppend(stack, [res]);
    ProductAppend(sa, [res]);
    AddToLastSnoc(sa, res);
    assert Product([res]) == res;
    var p, q := Product(stack), Product(sa);
    assert p * res * q == p * (q * res);
  }

  lemma {:induction false} AddFirstTokenCorrect(x: LExpr)
    requires IsOperand(x)
    ensures AddFirstToken(x) == Some(AddFirstOperand(x))
    decreases x, 1
  {
    if x.Nested? {
      AdvancedCorrect(x.inner);
    }
  }

  /** `eval_add_precedence` evaluates a well-formed expression with `+`
      binding tighter than `*`, groups first. */
  lemma {:induction false} AdvancedCorrect(e: Expr)
    requires WellFormed(e)
    ensures Advanced(e) == Some(AddFirst(e.row))
    decreases e, 0
  {
    var row := e.row;
    var w := row[..|row| - 1];
    var x := row[|row| - 1];
    assert row == w + [x];
    AddFirstTokenCorrect(x);
    SumsLast(w, x);
    AddFirstRunCorrect(w, AddFirstOperand(x), []);
  }

  /** `Expr::eval_add_precedence`: tokens are popped from the end of the row. */
  method EvalAddPrecedence(e: Expr) returns (r: Option<int>)
    ensures r == Advanced(e)
    decreases e, 1
  {
    var row := e.row;
    var res := 0;
    var stack: seq<int> := [];
    while row != []
      invariant row == e.row[..|row|]
      invariant AddFirstRun(row, res, stack) == Advanced(e)
      decreases |row|
    {
      var token := row[|row| - 1];
      assert token in e.row;
      row := row[..|row| - 1];
      if token == OpToken(Add) {
        if row == [] {
          return None;
        }
        var next := row[|row| - 1];
        assert next in e.row;
        row := row[..|row| - 1];
        var value := EvalAddToken(next);
        if value.None? {
          return None;
        }
        res := res + value.value;
      } else if token == OpToken(Mul) {
        stack := stack + [res];
      } else {
        var value := EvalAddToken(token);
        if value.None? {
          return None;
        }
        res := value.value;
      }
    }
    stack := stack + [res];
    return Some(Product(stack));
  }

  /** `LExpr::eval_add_precedence`. */
  method EvalAddToken(x: LExpr) returns (r: Option<int>)
    ensures r == AddFirstToken(x)
    decreases x, 2
  {
    match x
    case Lit(n) => r := Some(n);
    case OpToken(_) => r := None;
    case Nested(e) => r := EvalAddPrecedence(e);
  }

  // Reading a line

  /** Open minus closed parentheses in `s`. */
  function Depth(s: string): int
  {
    if s == [] then 0 else Depth(s[..|s| - 1]) + Step(s[|s| - 1])
  }

  function Step(c: char): int
  {
    if c == '(' then 1 else if c == ')' then -1 else 0
  }

  /** Position `i` holds the parenthesis closing the one just before `s`. */
  predicate ClosesAt(s: string, i: nat)
  {
    i < |s| && s[i] == ')' && Depth(s[..i]) == 0
  }

  /** The first position from `i` on that closes the parenthesis before `s`. */
  function FirstCloseFrom(s: string, i: nat): (r: Option<nat>)
    requires i <= |s|
    ensures r.Some? ==> i <= r.value && ClosesAt(s, r.value)
    ensures r.Some? ==> forall j: nat :: i <= j < r.value ==> !ClosesAt(s, j)
    ensures r.None? ==> forall j: nat :: i <= j ==> !ClosesAt(s, j)
    decreases |s| - i
  {
    if i == |s| then None else if ClosesAt(s, i) then Some(i) else FirstCloseFrom(s, i + 1)
  }

  function FirstClose(s: string): Option<nat>
  {
    FirstCloseFrom(s, 0)
  }

  /** `matching_parens`, with `None` where the source panics. */
  method MatchingParens(s: string) returns (r: Option<nat>)
    ensures r == FirstClose(s)
  {
    var count: nat := 0;
    for i := 0 to |s|
      invariant count == Depth(s[..i])
      invariant FirstClose(s) == FirstCloseFrom(s, i)
    {
      assert s[..i + 1][..i] == s[..i];
      if s[i] == '(' {
        count := count + 1;
      } else if s[i] == ')' && count == 0 {
        return Some(i);
      } else if s[i] == ')' {
        count := count - 1;
      }
    }
    return None;
  }

  /** Rust's `str::trim_start`. */
  function TrimStart(s: string): (r: string)
    ensures |r| <= |s| && (r == [] || !IsSpace(r[0]))
    ensures exists k :: 0 <= k <= |s| && r == s[k..] && forall j :: 0 <= j < k ==> IsSpace(s[j])
  {
    if s != [] && IsSpace(s[0]) then
      var r := TrimStart(s[1..]);
      var k :| 0 <= k <= |s[1..]| && r == s[1..][k..] && forall j :: 0 <= j < k ==> IsSpace(s[1..][j]);
      assert r == s[k + 1..];
      r
    else
      assert s == s[0..];
      s
  }

  /** What `Expr::from_str` computes on the text `s` still to read, with the
      tokens `row` read so far; `None` where the source panics: a group
      without its closing parenthesis, an empty word, a word that starts with
      a digit but is no number, or any other word than `+` and `*`. */
  function ParseFrom(s: string, row: seq<LExpr>): Option<Expr>
    decreases |s|, 2
  {
    if s == [] then Some(Expr(row))
    else if s[0] == '(' then ParseGroupFrom(s[1..], row)
    else ParseWordFrom(s, row)
  }

  /** A group: the text up to the matching parenthesis read as an
      expression, then the rest without its leading white space. */
  function ParseGroupFrom(parens: string, row: seq<LExpr>): Option<Expr>
    decreases |parens| + 1, 1
  {
    match FirstClose(parens)
    case None => None
    case Some(i) =>
      match ParseFrom(parens[..i], [])
      case None => None
      case Some(nested) => ParseFrom(TrimStart(parens[i + 1..]), row + [Nested(nested)])
  }

  /** A word: up to the next space, or the whole text. */
  function ParseWordFrom(s: string, row: seq<LExpr>): Option<Expr>
    decreases |s|, 1
  {
    var split := SplitOnce(s, " ");
    var word := if split.Some? then split.value.0 else s;
    var rest := if split.Some? then split.value.1 else [];
    match ReadWord(word)
    case None => None
    case Some(x) => ParseFrom(rest, row + [x])
  }

  /** One word: a number when it starts with a digit, or `+` or `*`. */
  function ReadWord(word: string): (r: Option<LExpr>)
    ensures r.Some? ==> !r.value.Nested?
  {
    if word == [] then None
    else if IsDigit(word[0]) then
      match ParseNat(word)
      case None => None
      case Some(n) => Some(Lit(n))
    else if word == "+" then Some(OpToken(Add))
    else if word == "*" then Some(OpToken(Mul))
    else None
  }

  /** What `Expr::from_str` computes. */
  function Parse(s: string): Option<Expr>
  {
    ParseFrom(s, [])
  }

  /** `Expr::from_str`. */
  method FromStr(text: string) returns (r: Option<Expr>)
    ensures r == Parse(text)
    decreases |text|
  {
    var s := text;
    var row: seq<LExpr> := [];
    while s != []
      invariant |s| <= |text|
      invariant ParseFrom(s, row) == Parse(text)
      decreases |s|
    {
      ghost var before, read := s, row;
      if s[0] == '(' {
        var parens := s[1..];
        assert ParseFrom(s, row) == ParseGroupFrom(parens, row);
        var close := MatchingParens(parens);
        if close.None? {
          return None;
        }
        var i := close.value;
        var nested, rest := parens[..i], parens[i..];
        var inner := FromStr(nested);
        if inner.None? {
          return None;
        }
        row := row + [Nested(inner.value)];
        assert rest[1..] == parens[i + 1..];
        s := TrimStart(rest[1..]);
      } else {
        assert ParseFrom(s, row) == ParseWordFrom(s, row);
        var word;
        var split := SplitOnce(s, " ");
        if split.Some? {
          word, s := split.value.0, split.value.1;
        } else {
          word, s := s, [];
        }
        var token := ReadWord(word);
        if token.None? {
          return None;
        }
        row := row + [token.value];
        assert ParseWordFrom(before, read) == ParseFrom(s, row);
      }
    }
    return Some(Expr(row));
  }

  /** A token as the puzzle input writes it. */
  function ShowToken(x: LExpr): (r: string)
    ensures |r| > 0 && !IsSpace(r[0]) && (r[0] == '(' <==> x.Nested?)
    ensures '\n' !in r
    decreases x
  {
    match x
    case Lit(n) => assert AllDigits(ShowNat(n)); ShowNat(n)
    case OpToken(Add) => "+"
    case OpToken(Mul) => "*"
    case Nested(e) => "(" + Show(e) + ")"
  }

  /** Tokens separated by single spaces. */
  function ShowRow(row: seq<LExpr>): (r: string)
    ensures r == [] <==> row == []
    ensures r != [] ==> !IsSpace(r[0])
    ensures '\n' !in r
    decreases row
  {
    if row == [] then []
    else ShowToken(row[0]) + (if |row| == 1 then [] else " " + ShowRow(row[1..]))
  }

  function Show(e: Expr): (r: string)
    ensures '\n' !in r
    decreases e
  {
    ShowRow(e.row)
  }

  /** No prefix closes more parentheses than it opens, and the whole opens
      as many as it closes. */
  predicate Balanced(s: string)
  {
    Depth(s) == 0 && forall i :: 0 <= i <= |s| ==> Depth(s[..i]) >= 0
  }

  lemma {:induction false} DepthAppend(a: string, b: string)
    ensures Depth(a + b) == Depth(a) + Depth(b)
    decreases |b|
  {
    if b == [] {
      assert a + b == a;
    } else {
      assert (a + b)[..|a + b| - 1] == a + b[..|b| - 1];
      DepthAppend(a, b[..|b| - 1]);
    }
  }

  lemma {:induction false} BalancedAppend(a: string, b: string)
    requires Balanced(a) && Balanced(b)
    ensures Balanced(a + b)
  {
    DepthAppend(a, b);
    forall i | 0 <= i <= |a + b| ensures Depth((a + b)[..i]) >= 0 {
      if i <= |a| {
        assert (a + b)[..i] == a[..i];
      } else {
        assert (a + b)[..i] == a + b[..i - |a|];
        DepthAppend(a, b[..i - |a|]);
      }
    }
  }

  lemma {:induction false} BalancedWrap(a: string)
    requires Balanced(a)
    ensures Balanced("(" + a + ")")
  {
    var w := "(" + a + ")";
    assert Depth("(") == 1 by {
      assert "("[..0] == [];
    }
    DepthAppend("(", a);
    DepthAppend("(" + a, ")");
    assert Depth(")") == -1 by {
      assert ")"[..0] == [];
    }
    forall i | 0 <= i <= |w| ensures Depth(w[..i]) >= 0 {
      if i == |w| {
        assert w[..i] == w;
      } else if i > 0 {
        assert w[..i] == "(" + a[..i - 1];
        DepthAppend("(", a[..i - 1]);
      } else {
        assert w[..i] == [];
      }
    }
  }

  /** Depth never changes over text without parentheses. */
  lemma {:induction false} BalancedPlain(s: string)
    requires forall i :: 0 <= i < |s| ==> s[i] != '(' && s[i] != ')'
    ensures Balanced(s)
  {
    forall i | 0 <= i <= |s| ensures Depth(s[..i]) == 0 {
      PlainDepth(s, i);
    }
    assert s[..|s|] == s;
  }

  lemma {:induction false} PlainDepth(s: string, i: nat)
    requires forall i :: 0 <= i < |s| ==> s[i] != '(' && s[i] != ')'
    requires i <= |s|
    ensures Depth(s[..i]) == 0
  {
    if i > 0 {
      assert s[..i][..i - 1] == s[..i - 1];
      PlainDepth(s, i - 1);
    }
  }

  lemma {:induction false} TokenBalanced(x: LExpr)
    ensures Balanced(ShowToken(x))
    decreases x, 2
  {
    match x
    case Lit(n) =>
      BalancedPlain(ShowNat(n));
    case OpToken(_) =>
      BalancedPlain(ShowToken(x));
    case Nested(e) =>
      RowBalanced(e.row);
      BalancedWrap(Show(e));
  }

  lemma {:induction false} RowBalanced(row: seq<LExpr>)
    ensures Balanced(ShowRow(row))
    decreases row, 1
  {
    if row == [] {
      assert ShowRow(row)[..0] == [];
    } else {
      TokenBalanced(row[0]);
      if |row| > 1 {
        RowBalanced(row[1..]);
        BalancedPlain(" ");
        BalancedAppend(" ", ShowRow(row[1..]));
        BalancedAppend(ShowToken(row[0]), " " + ShowRow(row[1..]));
      } else {
        assert ShowToken(row[0]) + [] == ShowToken(row[0]);
      }
    }
  }

  /** In a balanced text followed by `)`, that is the parenthesis closing
      the one before the text. */
  lemma {:induction false} CloseAfter(t: string, tail: string)
    requires Balanced(t)
    ensures FirstClose(t + ")" + tail) == Some(|t|)
  {
    var s := t + ")" + tail;
    assert s[..|t|] == t;
    assert ClosesAt(s, |t|);
    forall j: nat | j < |t| ensures !ClosesAt(s, j) {
      assert s[..j] == t[..j];
      if s[j] == ')' {
        assert t[..j + 1][..j] == t[..j];
        assert Depth(t[..j + 1]) == Depth(t[..j]) - 1;
      }
    }
  }

  lemma {:induction false} TrimSpace(r: string)
    requires r == [] || !IsSpace(r[0])
    ensures TrimStart(r) == r
    ensures TrimStart(" " + r) == r
  {
    assert (" " + r)[1..] == r;
  }

  /** A word without spaces is the whole text to `split_once(' ')`. */
  lemma {:induction false} SplitOnceNone(w: string)
    requires forall i :: 0 <= i < |w| ==> w[i] != ' '
    ensures SplitOnce(w, " ") == None
  {
    forall j ensures !OccursAt(w, " ", j) {
      if 0 <= j < |w| {
        assert w[j..j + 1][0] == w[j];
      }
    }
  }

  /** Reading a word that `r` follows after one space, or that ends the text. */
  lemma {:induction false} ParseWord(w: string, x: LExpr, r: string, row: seq<LExpr>)
    requires ReadWord(w) == Some(x) && w[0] != '('
    requires forall i :: 0 <= i < |w| ==> w[i] != ' '
    ensures ParseFrom(w + (if r == [] then [] else " " + r), row) == ParseFrom(r, row + [x])
  {
    var s := w + (if r == [] then [] else " " + r);
    assert s[0] == w[0];
    if r == [] {
      assert s == w;
      SplitOnceNone(w);
      assert SplitOnce(s, " ") == None;
    } else {
      assert s == w + " " + r;
      SplitOnceAt(w, " ", r);
      assert SplitOnce(s, " ") == Some((w, r));
    }
  }

  /** Reading a written group that `r` follows after one space, or that ends
      the text. */
  lemma {:induction false} ParseNested(e: Expr, r: string, row: seq<LExpr>)
    requires r == [] || !IsSpace(r[0])
    ensures ParseFrom("(" + Show(e) + ")" + (if r == [] then [] else " " + r), row) == ParseFrom(r, row + [Nested(e)])
    decreases e, 5
  {
    var tail := if r == [] then [] else " " + r;
    TrimSpace(r);
    RowBalanced(e.row);
    CloseAfter(Show(e), tail);
    ParseShow(e);
    ParseGroup(Show(e), tail, e, row);
  }

  /** Reading a group whose inside reads as `e`. */
  lemma {:induction false} ParseGroup(inner: string, tail: string, e: Expr, row: seq<LExpr>)
    requires FirstClose(inner + ")" + tail) == Some(|inner|)
    requires ParseFrom(inner, []) == Some(e)
    ensures ParseFrom("(" + inner + ")" + tail, row) == ParseFrom(TrimStart(tail), row + [Nested(e)])
  {
    var s := "(" + inner + ")" + tail;
    var parens := s[1..];
    assert parens == inner + ")" + tail;
    assert parens[..|inner|] == inner;
    assert parens[|inner| + 1..] == tail;
    assert ParseFrom(s, row) == ParseGroupFrom(parens, row);
  }

  /** A written word token reads back. */
  lemma {:induction false} ReadShownWord(x: LExpr)
    requires !x.Nested?
    ensures ReadWord(ShowToken(x)) == Some(x)
    ensures forall i :: 0 <= i < |ShowToken(x)| ==> ShowToken(x)[i] != ' '
  {
    if x.Lit? {
      ParseShowNat(x.value);
    }
  }

  /** Reading one written token, and the space after it if more follow. */
  lemma {:induction false} ParseToken(x: LExpr, r: string, row: seq<LExpr>)
    requires r == [] || !IsSpace(r[0])
    ensures ParseFrom(ShowToken(x) + (if r == [] then [] else " " + r), row) == ParseFrom(r, row + [x])
    decreases x, 2
  {
    if x.Nested? {
      ParseNested(x.inner, r, row);
    } else {
      ReadShownWord(x);
      ParseWord(ShowToken(x), x, r, row);
    }
  }

  lemma {:induction false} ParseShowRow(toks: seq<LExpr>, row: seq<LExpr>)
    ensures ParseFrom(ShowRow(toks), row) == Some(Expr(row + toks))
    decreases toks, 3
  {
    if toks == [] {
      assert row + toks == row;
    } else {
      var r := ShowRow(toks[1..]);
      assert |toks| == 1 <==> r == [];
      ParseToken(toks[0], r, row);
      ParseShowRow(toks[1..], row + [toks[0]]);
      assert row + [toks[0]] + toks[1..] == row + toks;
    }
  }

  /** Reading back a written expression gives the expression. */
  lemma {:induction false} ParseShow(e: Expr)
    ensures Parse(Show(e)) == Some(e)
    decreases e, 4
  {
    ParseShowRow(e.row, []);
    assert [] + e.row == e.row;
  }

  // The puzzle input and the two answers

  /** `parse`: the final newline dropped, one expression per line; `None`
      where a line does not read (the source's `unwrap` panics). */
  function ParseInput(input: string): Option<seq<Expr>>
  {
    ParseEach(Lines(Pop(input)), Parse)
  }

  /** The input file: one expression per line, each ended by a newline. */
  function ShowInput(es: seq<Expr>): string
    requires |es| > 0
  {
    Join(seq(|es|, i requires 0 <= i < |es| => Show(es[i])), '\n') + "\n"
  }

  /** A written input file reads back, provided its last line is not empty
      (`lines` drops a final empty line). */
  lemma ParseShowInput(es: seq<Expr>)
    requires |es| > 0 && es[|es| - 1].row != []
    ensures ParseInput(ShowInput(es)) == Some(es)
  {
    var lines := seq(|es|, i requires 0 <= i < |es| => Show(es[i]));
    assert Pop(ShowInput(es)) == Join(lines, '\n');
    LinesJoin(lines);
    forall i | 0 <= i < |lines| ensures Parse(lines[i]) == Some(es[i]) {
      ParseShow(es[i]);
    }
    ParseEachAll(lines, Parse, es);
  }

  /** The sum of the values `eval` gives each expression, `None` where an
      evaluation fails. */
  function Part1(es: seq<Expr>): Option<int>
  {
    if es == [] then Some(0)
    else
      match (Strict(es[0]), Part1(es[1..]))
      case (Some(a), Some(b)) => Some(a + b)
      case _ => None
  }

  /** The sum of the values `eval_add_precedence` gives each expression. */
  function Part2(es: seq<Expr>): Option<int>
  {
    if es == [] then Some(0)
    else
      match (Advanced(es[0]), Part2(es[1..]))
      case (Some(a), Some(b)) => Some(a + b)
      case _ => None
  }

  predicate AllWellFormed(es: seq<Expr>)
  {
    forall i :: 0 <= i < |es| ==> WellFormed(es[i])
  }

  /** The sum of the left-to-right values. */
  function LeftToRightTotal(es: seq<Expr>): int
    requires AllWellFormed(es)
  {
    if es == [] then 0 else LeftToRight(es[0].row) + LeftToRightTotal(es[1..])
  }

  /** The sum of the `+`-first values. */
  function AddFirstTotal(es: seq<Expr>): int
    requires AllWellFormed(es)
  {
    if es == [] then 0 else AddFirst(es[0].row) + AddFirstTotal(es[1..])
  }

  /** On well-formed expressions part 1 adds up their left-to-right values. */
  lemma {:induction false} Part1Correct(es: seq<Expr>)
    requires AllWellFormed(es)
    ensures Part1(es) == Some(LeftToRightTotal(es))
  {
    if es != [] {
      StrictCorrect(es[0]);
      Part1Correct(es[1..]);
    }
  }

  /** On well-formed expressions part 2 adds up their `+`-first values. */
  lemma {:induction false} Part2Correct(es: seq<Expr>)
    requires AllWellFormed(es)
    ensures Part2(es) == Some(AddFirstTotal(es))
  {
    if es != [] {
      AdvancedCorrect(es[0]);
      Part2Correct(es[1..]);
    }
  }

  /** The first worked example, `1 + 2 * 3 + 4 * 5 + 6`. */
  function FirstExample(): Expr
  {
    Expr([Lit(1), OpToken(Add), Lit(2), OpToken(Mul), Lit(3), OpToken(Add),
          Lit(4), OpToken(Mul), Lit(5), OpToken(Add), Lit(6)])
  }

  /** Left to right the first example is 71. */
  lemma {:induction false} FirstExampleStrict()
    ensures Strict(FirstExample()) == Some(71)
  {
  }

  /** With `+` first the first example is 231, popping from the end:
      6 + 5 = 11, pushed at `*`, 4 + 3 = 7, pushed at `*`, 2 + 1 = 3, and
      11 * 7 * 3 = 231. */
  lemma {:induction false} FirstExampleAdvanced()
    ensures Advanced(FirstExample()) == Some(231)
  {
    var one, two, three, four, five, six := Lit(1), Lit(2), Lit(3), Lit(4), Lit(5), Lit(6);
    var add, mul := OpToken(Add), OpToken(Mul);
    var w2, w4 := [one, add], [one, add, two, mul];
    var w6, w8 := w4 + [three, add], w4 + [three, add, four, mul];
    var w10 := w8 + [five, add];
    assert AddFirstRun([], 3, [11, 7]) == Some(231) by {
      assert [11, 7] + [3] == [11, 7, 3];
      assert [11, 7, 3][1..] == [7, 3] && [7, 3][1..] == [3] && [3][1..] == [];
    }
    assert AddFirstRun(w2, 2, [11, 7]) == Some(231) by {
      assert [] + [one, add] == w2;
      RunAdd([], one, 1, 2, [11, 7]);
    }
    assert AddFirstRun(w4, 7, [11]) == Some(231) by {
      assert w2 + [two, mul] == w4 && [11] + [7] == [11, 7];
      RunMul(w2, two, 2, 7, [11]);
    }
    assert AddFirstRun(w6, 4, [11]) == Some(231) by {
      RunAdd(w4, three, 3, 4, [11]);
    }
    assert AddFirstRun(w8, 11, []) == Some(231) by {
      assert w6 + [four, mul] == w8 && [] + [11] == [11];
      RunMul(w6, four, 4, 11, []);
    }
    assert AddFirstRun(w10, 6, []) == Some(231) by {
      RunAdd(w8, five, 5, 6, []);
    }
    RunOperand(w10, six, 6, 0, []);
    assert FirstExample().row == w10 + [six];
  }
}
