/**
 The reading that C gives a text, in which operators of one level associate to the left, against the one of the
 parser.
 */
module IfAssociation {
  import opened CText
  import opened CNumbers
  import opened IfParser
  import opened IfGrammar
  import opened IfTheorems

  // ---------- C's value ----------

  // C leaves operands of &&, || and ?: out that are not needed; here, as in the parser, they are evaluated too, and what
  // one of them leaves undefined is.  So this is C's value where all operands are defined.

  function LeftValueOf(env: Env, v: Value): Num
    decreases v, 0
  {
    match v
    case Paren(_, e, _) => LeftEval(env, e)
    case UnaryOp(_, op, x) => ApplyUn(op, LeftValueOf(env, x))
    case _ => ValueOf(env, v)
  }

  /** A run of operators of one level is taken from the left. */
  function LeftEval(env: Env, e: Expr): Num
    decreases e, 0
  {
    match e
    case Leaf(v) => LeftValueOf(env, v)
    case Binary(level, left, _, op, _, right) => LeftOn(env, LeftEval(env, left), op, level, right)
    case Cond(test, _, yes, _, no) => Choose(LeftEval(env, test), LeftEval(env, yes), LeftEval(env, no))
  }

  /** `acc` is what the operators of the level up to `op` have made. */
  function LeftOn(env: Env, acc: Num, op: BinOp, level: nat, right: Expr): Num
    decreases right, 1
  {
    if right.Binary? && right.level == level
    then LeftOn(env, Apply(op, acc, LeftEval(env, right.left)), right.op, level, right.right)
    else Apply(op, acc, LeftEval(env, right))
  }

  // ---------- two operators in a row ----------

  /** Both ways to group give the same, when both give anything. */
  predicate Agree(o1: BinOp, o2: BinOp, a: Num, b: Num, c: Num) {
    var right, left := Apply(o1, a, Apply(o2, b, c)), Apply(o2, Apply(o1, a, b), c);
    right != Undef && left != Undef ==> right == left
  }

  predicate IsLogic(op: BinOp) { op == BAnd || op == BXor || op == BOr || op == LAnd || op == LOr }

  /** Operators that group either way when they follow each other. */
  predicate Chains(o1: BinOp, o2: BinOp) {
    || (o1 == Add && (o2 == Add || o2 == Sub))
    || (o1 == Mul && o2 == Mul)
    || (IsLogic(o1) && o1 == o2)
  }

  function LevelOfOp(op: BinOp): nat {
    match op
    case Mul => 1 case Div => 1 case Mod => 1
    case Add => 2 case Sub => 2
    case Shl => 3 case Shr => 3
    case Le => 4 case Lt => 4 case Ge => 4 case Gt => 4
    case Eq => 5 case Ne => 5
    case BAnd => 6
    case BXor => 7
    case BOr => 8
    case LAnd => 9
    case LOr => 10
  }

  lemma BitsChain(op: BinOp, a: int, b: int, c: int)
    requires op == BAnd || op == BXor || op == BOr
    ensures Apply(op, Num(a), Apply(op, Num(b), Num(c))) == Apply(op, Apply(op, Num(a), Num(b)), Num(c))
  {
    match op
    case BAnd => BothAssociates(a, b, c);
    case BXor => DifferAssociates(a, b, c);
    case BOr => EitherAssociates(a, b, c);
  }

  lemma ProductsChain(a: int, b: int, c: int)
    requires Apply(Mul, Num(a), Apply(Mul, Num(b), Num(c))) != Undef && Apply(Mul, Num(a), Num(b)) != Undef
    ensures Apply(Mul, Apply(Mul, Num(a), Num(b)), Num(c)) == Apply(Mul, Num(a), Apply(Mul, Num(b), Num(c)))
  {
    Products(a, b, c);
  }

  /** What is defined grouped to the right stays so when it is grouped to the left, if the first step is. */
  lemma ChainCarries(o1: BinOp, o2: BinOp, a: Num, b: Num, c: Num)
    requires Chains(o1, o2)
    requires Apply(o1, a, Apply(o2, b, c)) != Undef && Apply(o1, a, b) != Undef
    ensures Apply(o2, Apply(o1, a, b), c) == Apply(o1, a, Apply(o2, b, c))
  {
    match o1
    case BAnd => BitsChain(o1, a.n, b.n, c.n);
    case BXor => BitsChain(o1, a.n, b.n, c.n);
    case BOr => BitsChain(o1, a.n, b.n, c.n);
    case Mul => ProductsChain(a.n, b.n, c.n);
    case _ =>
  }

  lemma ChainAgrees(o1: BinOp, o2: BinOp, a: Num, b: Num, c: Num)
    requires Chains(o1, o2)
    ensures Agree(o1, o2, a, b, c)
  {
    if Apply(o1, a, Apply(o2, b, c)) != Undef && Apply(o1, a, b) != Undef {
      ChainCarries(o1, o2, a, b, c);
    }
  }

  lemma Products(a: int, b: int, c: int)
    ensures a * (b * c) == (a * b) * c
  {
  }

  /** Numbers for which two operators of one level that do not chain tell the groupings apart. */
  function Witness(o1: BinOp, o2: BinOp): (int, int, int) {
    match o1
    case Mul => (2, 1, 2)
    case Div => if o2 == Mul then (1, 1, 2) else if o2 == Div then (1, 2, 2) else (1, 3, 2)
    case Mod => if o2 == Mul then (1, 1, 2) else if o2 == Div then (1, 4, 2) else (1, 3, 2)
    case Sub => (0, 0, 1)
    case Shl => (1, 0, 1)
    case Shr => (1, 0, 1)
    case Le => if o2 == Ge then (0, 0, 2) else if o2 == Gt then (0, 0, 1) else (0, 0, 0)
    case Lt => if o2 == Lt || o2 == Ge then (0, 2, 2) else (0, 2, 1)
    case Ge => if o2 == Le || o2 == Gt then (0, 0, 1) else (0, 0, 0)
    case Gt => if o2 == Lt then (0, 0, 1) else if o2 == Gt then (1, 0, 1) else (0, 0, 0)
    case Eq => (0, 0, 2)
    case Ne => (0, 2, 1)
    case _ => (0, 0, 0)
  }

  lemma TimesWitness(op: BinOp)
    requires op == Div || op == Mod
    ensures !Agree(Mul, op, Num(2), Num(1), Num(2))
  {
    assert Quotient(1, 2) == 0 && Quotient(2, 2) == 1;
  }

  lemma QuotientOfProduct()
    ensures !Agree(Div, Mul, Num(1), Num(1), Num(2))
  {
    assert Quotient(1, 2) == 0 && Quotient(1, 1) == 1;
  }

  lemma QuotientOfQuotient()
    ensures !Agree(Div, Div, Num(1), Num(2), Num(2))
  {
    assert Quotient(1, 2) == 0 && Quotient(2, 2) == 1 && Quotient(0, 2) == 0 && Quotient(1, 1) == 1;
  }

  lemma QuotientOfRest()
    ensures !Agree(Div, Mod, Num(1), Num(3), Num(2))
  {
    assert Quotient(3, 2) == 1 && Quotient(1, 1) == 1 && Quotient(1, 3) == 0 && Quotient(0, 2) == 0;
  }

  lemma RestOfProduct()
    ensures !Agree(Mod, Mul, Num(1), Num(1), Num(2))
  {
    assert Quotient(1, 2) == 0 && Quotient(1, 1) == 1;
  }

  lemma RestOfQuotient()
    ensures !Agree(Mod, Div, Num(1), Num(4), Num(2))
  {
    assert Quotient(4, 2) == 2 && Quotient(1, 2) == 0 && Quotient(1, 4) == 0;
  }

  lemma RestOfRest()
    ensures !Agree(Mod, Mod, Num(1), Num(3), Num(2))
  {
    assert Quotient(3, 2) == 1 && Quotient(1, 1) == 1 && Quotient(1, 3) == 0 && Quotient(1, 2) == 0;
  }

  lemma ProductWitness(o1: BinOp, o2: BinOp)
    requires LevelOfOp(o1) == 1 && LevelOfOp(o2) == 1 && !Chains(o1, o2)
    ensures var (a, b, c) := Witness(o1, o2); !Agree(o1, o2, Num(a), Num(b), Num(c))
  {
    match (o1, o2)
    case (Mul, _) => TimesWitness(o2);
    case (Div, Mul) => QuotientOfProduct();
    case (Div, Div) => QuotientOfQuotient();
    case (Div, Mod) => QuotientOfRest();
    case (Mod, Mul) => RestOfProduct();
    case (Mod, Div) => RestOfQuotient();
    case (Mod, Mod) => RestOfRest();
  }

  lemma ShiftWitness(o1: BinOp, o2: BinOp)
    requires LevelOfOp(o1) == 3 && LevelOfOp(o2) == 3
    ensures !Agree(o1, o2, Num(1), Num(0), Num(1))
  {
    assert Pow2(0) == 1 && Pow2(1) == 2;
  }

  lemma OrderWitness(o1: BinOp, o2: BinOp)
    requires LevelOfOp(o1) == 4 && LevelOfOp(o2) == 4
    ensures var (a, b, c) := Witness(o1, o2); !Agree(o1, o2, Num(a), Num(b), Num(c))
  {
  }

  lemma WitnessDiffers(o1: BinOp, o2: BinOp)
    requires LevelOfOp(o1) == LevelOfOp(o2) && !Chains(o1, o2)
    ensures var (a, b, c) := Witness(o1, o2); !Agree(o1, o2, Num(a), Num(b), Num(c))
  {
    match LevelOfOp(o1)
    case 1 => ProductWitness(o1, o2);
    case 3 => ShiftWitness(o1, o2);
    case 4 => OrderWitness(o1, o2);
    case _ =>
  }

  /** Two operators of one level group either way for all numbers exactly when they chain. */
  lemma AgreeIffChains(o1: BinOp, o2: BinOp)
    requires LevelOfOp(o1) == LevelOfOp(o2)
    ensures (forall a, b, c :: Agree(o1, o2, a, b, c)) <==> Chains(o1, o2)
  {
    if Chains(o1, o2) {
      forall a, b, c ensures Agree(o1, o2, a, b, c) { ChainAgrees(o1, o2, a, b, c); }
    } else {
      WitnessDiffers(o1, o2);
      var (a, b, c) := Witness(o1, o2);
      assert !Agree(o1, o2, Num(a), Num(b), Num(c));
    }
  }

  // ---------- whole expressions ----------

  predicate ValueChains(v: Value) {
    match v
    case Paren(_, e, _) => AllChain(e)
    case UnaryOp(_, _, x) => ValueChains(x)
    case _ => true
  }

  /** Any two operators of one level that follow each other chain. */
  predicate AllChain(e: Expr) {
    match e
    case Leaf(v) => ValueChains(v)
    case Binary(level, left, _, op, _, right) =>
      AllChain(left) && AllChain(right) && (right.Binary? && right.level == level ==> Chains(op, right.op))
    case Cond(test, _, yes, _, no) => AllChain(test) && AllChain(yes) && AllChain(no)
  }

  lemma {:induction false} LeftOnDefined(env: Env, acc: Num, op: BinOp, level: nat, right: Expr)
    requires LeftOn(env, acc, op, level, right) != Undef
    ensures acc != Undef
    decreases right
  {
    if right.Binary? && right.level == level {
      LeftOnDefined(env, Apply(op, acc, LeftEval(env, right.left)), right.op, level, right.right);
    }
  }

  lemma {:induction false} ValueReadsAlike(env: Env, v: Value)
    requires ValueChains(v) && ValueOf(env, v) != Undef && LeftValueOf(env, v) != Undef
    ensures LeftValueOf(env, v) == ValueOf(env, v)
    decreases v
  {
    match v
    case Paren(_, e, _) => ReadsAlike(env, e);
    case UnaryOp(_, _, x) => ValueReadsAlike(env, x);
    case _ =>
  }

  /** An expression in which all runs chain has C's value, unless one of the two is undefined. */
  lemma {:induction false} ReadsAlike(env: Env, e: Expr)
    requires AllChain(e) && Eval(env, e) != Undef && LeftEval(env, e) != Undef
    ensures LeftEval(env, e) == Eval(env, e)
    decreases e, 0
  {
    match e
    case Leaf(v) => ValueReadsAlike(env, v);
    case Binary(level, left, _, op, _, right) =>
      LeftOnDefined(env, LeftEval(env, left), op, level, right);
      ReadsAlike(env, left);
      RunReadsAlike(env, Eval(env, left), op, level, right);
    case Cond(test, _, yes, _, no) =>
      ReadsAlike(env, test);
      ReadsAlike(env, yes);
      ReadsAlike(env, no);
  }

  lemma {:induction false} RunReadsAlike(env: Env, acc: Num, op: BinOp, level: nat, right: Expr)
    requires AllChain(right) && (right.Binary? && right.level == level ==> Chains(op, right.op))
    requires LeftOn(env, acc, op, level, right) != Undef && Apply(op, acc, Eval(env, right)) != Undef
    ensures LeftOn(env, acc, op, level, right) == Apply(op, acc, Eval(env, right))
    decreases right, 1
  {
    if right.Binary? && right.level == level {
      var l, r := right.left, right.right;
      var next := Apply(op, acc, LeftEval(env, l));
      LeftOnDefined(env, next, right.op, level, r);
      ReadsAlike(env, l);
      ChainCarries(op, right.op, acc, Eval(env, l), Eval(env, r));
      RunReadsAlike(env, next, right.op, level, r);
    } else {
      ReadsAlike(env, right);
    }
  }

  /** So the parser gives such a text the value that C gives it. */
  lemma ParsesLikeC(env: Env, e: Expr, ws: string, s: string)
    requires Spells(e, ws, s) && AllChain(e) && Eval(env, e) != Undef && LeftEval(env, e) != Undef
    ensures ParseIfExpression(env, s) == Ok("", LeftEval(env, e))
  {
    ReadsAlike(env, e);
    SpellsIsRead(env, e, ws, s);
  }
}
