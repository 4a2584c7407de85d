/** What a filter means before and after the rewriting. */
module FilterMeaning {
  import opened Common
  import opened FilterRuntime
  import opened FilterCompiler

  datatype Outcome<V> = Value(v: V) | Throw

  /** The JavaScript host: truthiness, literals, and the operators and queries that may throw.  `void` yields
      `voided`; `delete` of an identifier or of a member, which need not have a value, is `forget` or `remove`,
      and that of any other operand yields `dropped`. */
  datatype Host<!V> = Host(
    truthy: V -> bool,
    boolean: bool -> V,
    undefined: V,
    voided: V,
    dropped: V,
    elements: V -> Option<seq<int>>,
    list: seq<V> -> V,
    identifier: string -> Outcome<V>,
    native: (string, seq<V>) -> Outcome<V>,
    forget: string -> Outcome<V>,
    remove: (string, seq<V>) -> Outcome<V>,
    unary: (string, V) -> Outcome<V>,
    scalar: (string, V, V) -> Outcome<V>,
    resolve: nat -> Outcome<V>,
    pipe: (string, V, seq<V>) -> Outcome<V>)

  ghost predicate Lawful<V>(h: Host<V>) {
    h.truthy(h.boolean(true)) && !h.truthy(h.boolean(false))
  }

  ghost function Dull<V>(h: Host<V>, o: Outcome<V>): Outcome<V> {
    if o.Value? then Value(h.boolean(false)) else Throw
  }

  /** The host in which `void` and `delete` do what the runtime does with operators it does not know: they
      evaluate the operand and yield false. */
  ghost function Plain<V>(h: Host<V>): (g: Host<V>)
    ensures g.truthy == h.truthy && g.boolean == h.boolean && g.list == h.list && g.identifier == h.identifier
    ensures g.native == h.native && g.resolve == h.resolve && g.pipe == h.pipe
    ensures g.unary == h.unary && g.undefined == h.undefined && g.elements == h.elements && g.scalar == h.scalar
  {
    h.(voided := h.boolean(false), dropped := h.boolean(false),
       forget := name => Dull(h, h.identifier(name)), remove := (form, vs) => Dull(h, h.native(form, vs)))
  }

  const UNARY := {"+", "-", "~", "!", "typeof"}
  const UNKNOWN := {"void", "delete"}
  const BINARY := {"instanceof", "in", "+", "-", "*", "/", "%", "**", "|", "^", "&", "==", "!=", "===", "!==",
                   "<", ">", "<=", ">=", "<<", ">>", ">>>"}

  /** A parsed filter. */
  ghost predicate Source<V>(n: Node<V>) {
    match n
    case Literal(_) => true
    case Identifier(_) => true
    case Native(_, es) => AllSource(es)
    case Array(es) => AllSource(es)
    case Attr(_, pipes) => PipesSource(pipes)
    case Unary(op, a) => op in UNARY + UNKNOWN && Source(a)
    case Binary(op, l, r) => op in BINARY && Source(l) && Source(r)
    case Logical(op, l, r) => op in {"&&", "||"} && Source(l) && Source(r)
    case Conditional(t, c, a) => Source(t) && Source(c) && Source(a)
    case _ => false
  }

  ghost predicate AllSource<V>(ns: seq<Node<V>>) {
    ns == [] || (Source(ns[0]) && AllSource(ns[1..]))
  }

  ghost predicate PipesSource<V>(ps: seq<Pipe<V>>) {
    ps == [] || (AllSource(ps[0].args) && PipesSource(ps[1..]))
  }

  // ---- the runtime's operators: every argument has been evaluated

  ghost function Compared<V>(h: Host<V>, op: string, l: V, r: V): Option<V> {
    match (h.elements(l), h.elements(r))
    case (Some(a), Some(b)) =>
      (match Meaning(op, a, b)
       case Some(answer) => Some(h.boolean(answer))
       case None => None)
    case _ => None
  }

  ghost function RunUnary<V>(h: Host<V>, op: string, v: V): Outcome<V> {
    if op == "!" then Value(h.boolean(!h.truthy(v)))
    else if op in UNARY then h.unary(op, v)
    else Value(h.boolean(false))
  }

  ghost function RunBinary<V>(h: Host<V>, op: string, l: V, r: V): Outcome<V> {
    if Compared(h, op, l, r).Some? then Value(Compared(h, op, l, r).value)
    else if op in BINARY then h.scalar(op, l, r)
    else if op == "||" then Value(if h.truthy(l) then l else r)
    else if op == "&&" then Value(if h.truthy(l) then r else l)
    else Value(h.boolean(false))
  }

  ghost function RunOperator<V>(h: Host<V>, op: string, args: seq<V>): Outcome<V>
    requires args != []
  {
    if |args| == 1 then RunUnary(h, op, args[0]) else RunBinary(h, op, args[0], args[1])
  }

  // ---- evaluation

  /** `&&`, `||` and `?:` evaluate lazily, `typeof` of an undeclared identifier is that of undefined, and
      `delete` does not ask for its operand's value; calls evaluate all their arguments first. */
  ghost function Eval<V>(h: Host<V>, n: Node<V>): Outcome<V>
    decreases n
  {
    match n
    case Literal(v) => Value(v)
    case Identifier(name) => h.identifier(name)
    case Native(form, es) =>
      (match EvalAll(h, es)
       case Some(vs) => h.native(form, vs)
       case None => Throw)
    case Array(es) =>
      (match EvalAll(h, es)
       case Some(vs) => Value(h.list(vs))
       case None => Throw)
    case Attr(token, pipes) =>
      (match h.resolve(token)
       case Value(v) => EvalPipes(h, v, pipes)
       case Throw => Throw)
    case Unary(op, a) =>
      if op == "delete" && a.Identifier? then h.forget(a.name)
      else if op == "delete" && a.Native? then
        (match EvalAll(h, a.operands)
         case Some(vs) => h.remove(a.form, vs)
         case None => Throw)
      else
        (match Eval(h, a)
         case Value(v) => SourceUnary(h, op, v)
         case Throw => if op == "typeof" && a.Identifier? then h.unary(op, h.undefined) else Throw)
    case Binary(op, l, r) =>
      (match (Eval(h, l), Eval(h, r))
       case (Value(v), Value(w)) => SourceBinary(h, op, v, w)
       case _ => Throw)
    case Logical(op, l, r) =>
      (match Eval(h, l)
       case Value(v) => if h.truthy(v) == (op == "&&") then Eval(h, r) else Value(v)
       case Throw => Throw)
    case Conditional(t, c, a) =>
      (match Eval(h, t)
       case Value(v) => if h.truthy(v) then Eval(h, c) else Eval(h, a)
       case Throw => Throw)
    case Operator(op, args) =>
      (match EvalAll(h, args)
       case Some(vs) => if vs == [] then Value(h.boolean(false)) else RunOperator(h, op, vs)
       case None => Throw)
    case Resolve(token) => h.resolve(token)
    case Pipeline(name, args) =>
      (match EvalAll(h, args)
       case Some(vs) => if vs == [] then Value(h.undefined) else h.pipe(name, vs[0], vs[1..])
       case None => Throw)
  }

  ghost function EvalAll<V>(h: Host<V>, ns: seq<Node<V>>): (vs: Option<seq<V>>)
    ensures vs.Some? ==> |vs.value| == |ns|
    decreases ns
  {
    if ns == [] then Some([])
    else match Eval(h, ns[0])
      case Throw => None
      case Value(v) =>
        match EvalAll(h, ns[1..])
        case Some(vs) => Some([v] + vs)
        case None => None
  }

  ghost function EvalPipes<V>(h: Host<V>, v: V, ps: seq<Pipe<V>>): Outcome<V>
    decreases ps
  {
    if ps == [] then Value(v)
    else match EvalAll(h, ps[0].args)
      case None => Throw
      case Some(vs) =>
        match h.pipe(ps[0].name, v, vs)
        case Value(w) => EvalPipes(h, w, ps[1..])
        case Throw => Throw
  }

  /** The filter language's own operators. */
  ghost function SourceUnary<V>(h: Host<V>, op: string, v: V): Outcome<V> {
    if op == "!" then Value(h.boolean(!h.truthy(v)))
    else if op == "void" then Value(h.voided)
    else if op == "delete" then Value(h.dropped)
    else h.unary(op, v)
  }

  ghost function SourceBinary<V>(h: Host<V>, op: string, l: V, r: V): Outcome<V> {
    match Compared(h, op, l, r)
    case Some(v) => Value(v)
    case None => h.scalar(op, l, r)
  }

  // ---- when eager evaluation makes no difference

  /** No operand that `&&` or `||` skips would have thrown, and no identifier under `typeof` is
      undeclared. */
  ghost predicate Quiet<V>(h: Host<V>, n: Node<V>)
    decreases n
  {
    match n
    case Native(_, es) => AllQuiet(h, es)
    case Array(es) => AllQuiet(h, es)
    case Attr(_, pipes) => PipesQuiet(h, pipes)
    case Unary(op, a) => Quiet(h, a) && (op == "typeof" && a.Identifier? ==> Eval(h, a).Value?)
    case Binary(_, l, r) => Quiet(h, l) && Quiet(h, r)
    case Logical(op, l, r) =>
      Quiet(h, l) && Quiet(h, r)
      && (Eval(h, l).Value? && h.truthy(Eval(h, l).v) != (op == "&&") ==> Eval(h, r).Value?)
    case Conditional(t, c, a) =>
      Quiet(h, t) && (Eval(h, t).Value? ==> if h.truthy(Eval(h, t).v) then Quiet(h, c) else Quiet(h, a))
    case _ => true
  }

  ghost predicate AllQuiet<V>(h: Host<V>, ns: seq<Node<V>>)
    decreases ns
  {
    ns == [] || (Quiet(h, ns[0]) && AllQuiet(h, ns[1..]))
  }

  ghost predicate PipesQuiet<V>(h: Host<V>, ps: seq<Pipe<V>>)
    decreases ps
  {
    ps == [] || (AllQuiet(h, ps[0].args) && PipesQuiet(h, ps[1..]))
  }

  // ---- what the traversal makes of each node

  lemma TraverseTwo<V>(a: Node<V>, b: Node<V>)
    ensures TraverseAll([a]) == [Traverse(a)]
    ensures TraverseAll([a, b]) == [Traverse(a), Traverse(b)]
  {
    assert [a][1..] == [] && [a, b][1..] == [b] && [b][1..] == [];
  }

  lemma TraverseConditional<V>(t: Node<V>, c: Node<V>, a: Node<V>)
    ensures Traverse(Conditional(t, c, a))
        == Conditional(Operator("!", [Operator("!", [Traverse(t)])]), Traverse(c), Traverse(a))
  {
    hide Weight, WeightAll, TraverseAll;
    var negated := Operator("!", [t]);
    TraverseTwo(t, t);
    assert Traverse(negated) == Operator("!", [Traverse(t)]);
    TraverseTwo(negated, negated);
    assert Traverse(Unary("!", negated)) == Operator("!", [Traverse(negated)]);
    TraverseThree(Unary("!", negated), c, a);
  }

  lemma TraverseThree<V>(a: Node<V>, b: Node<V>, c: Node<V>)
    ensures TraverseAll([a, b, c]) == [Traverse(a), Traverse(b), Traverse(c)]
  {
    TraverseTwo(b, c);
    assert [a, b, c][1..] == [b, c];
  }

  function TraversePipes<V>(ps: seq<Pipe<V>>): seq<Pipe<V>> {
    if ps == [] then [] else [Pipe(ps[0].name, TraverseAll(ps[0].args))] + TraversePipes(ps[1..])
  }

  lemma {:induction false} TraversePiped<V>(expr: Node<V>, pipes: seq<Pipe<V>>)
    ensures Traverse(Piped(expr, pipes)) == Piped(Traverse(expr), TraversePipes(pipes))
    decreases |pipes|
  {
    hide Weight, WeightAll;
    if pipes != [] {
      var args := [expr] + pipes[0].args;
      assert args[1..] == pipes[0].args;
      assert Traverse(Pipeline(pipes[0].name, args))
          == Pipeline(pipes[0].name, [Traverse(expr)] + TraverseAll(pipes[0].args));
      TraversePiped(Pipeline(pipes[0].name, args), pipes[1..]);
      assert TraversePipes(pipes)[1..] == TraversePipes(pipes[1..]);
    }
  }

  /** The visitor leaves the calls it made alone. */
  lemma {:induction false} PipedIsCall<V>(expr: Node<V>, pipes: seq<Pipe<V>>)
    requires expr.Resolve? || expr.Pipeline?
    ensures Piped(expr, pipes).Resolve? || Piped(expr, pipes).Pipeline?
    decreases |pipes|
  {
    if pipes != [] {
      PipedIsCall(Pipeline(pipes[0].name, [expr] + pipes[0].args), pipes[1..]);
    }
  }

  lemma {:induction false} EvalPiped<V>(h: Host<V>, expr: Node<V>, pipes: seq<Pipe<V>>)
    ensures Eval(h, Piped(expr, pipes))
        == match Eval(h, expr) { case Value(v) => EvalPipes(h, v, pipes) case Throw => Throw }
    decreases |pipes|
  {
    if pipes != [] {
      var args := [expr] + pipes[0].args;
      assert args[1..] == pipes[0].args;
      EvalPiped(h, Pipeline(pipes[0].name, args), pipes[1..]);
    }
  }

  ghost function Got<V>(o: Outcome<V>): Option<seq<V>> {
    if o.Value? then Some([o.v]) else None
  }

  lemma EvalOne<V>(h: Host<V>, a: Node<V>)
    ensures EvalAll(h, [a]) == Got(Eval(h, a))
  {
    assert [a][1..] == [];
    if Eval(h, a).Value? {
      assert [Eval(h, a).v] + [] == [Eval(h, a).v];
    }
  }

  lemma EvalTwo<V>(h: Host<V>, a: Node<V>, b: Node<V>)
    ensures EvalAll(h, [a, b])
         == if Eval(h, a).Value? && Eval(h, b).Value? then Some([Eval(h, a).v, Eval(h, b).v]) else None
  {
    assert [a, b][1..] == [b];
    EvalOne(h, b);
    if Eval(h, a).Value? && Eval(h, b).Value? {
      assert [Eval(h, a).v] + [Eval(h, b).v] == [Eval(h, a).v, Eval(h, b).v];
    }
  }

  lemma LogicalNotCompared<V>(h: Host<V>, op: string, l: V, r: V)
    requires op in {"&&", "||"}
    ensures Compared(h, op, l, r).None? && op !in BINARY
  {
  }

  // ---- meaning is preserved

  /** The rewritten node evaluates to what the node does where `void` and `delete` yield false, or throws if
      an operand does that the node does not evaluate. */
  ghost predicate Kept<V>(h: Host<V>, n: Node<V>) {
    Eval(h, Traverse(n)) == if Quiet(Plain(h), n) then Eval(Plain(h), n) else Throw
  }

  lemma TraverseUnary<V>(op: string, a: Node<V>)
    ensures Traverse(Unary(op, a)) == Operator(op, [Traverse(a)])
  {
    hide Weight, WeightAll, TraverseAll;
    TraverseTwo(a, a);
  }

  lemma RunsOne<V>(h: Host<V>, op: string, a: Node<V>)
    ensures Eval(h, Operator(op, [a])) == if Eval(h, a).Value? then RunUnary(h, op, Eval(h, a).v) else Throw
  {
    EvalOne(h, a);
  }

  lemma RunsTwo<V>(h: Host<V>, op: string, a: Node<V>, b: Node<V>)
    ensures Eval(h, Operator(op, [a, b]))
         == if Eval(h, a).Value? && Eval(h, b).Value? then RunBinary(h, op, Eval(h, a).v, Eval(h, b).v) else Throw
  {
    hide RunBinary;
    EvalTwo(h, a, b);
  }

  lemma UnaryKept<V>(h: Host<V>, op: string, a: Node<V>)
    requires Kept(h, a) && op in UNARY + UNKNOWN
    ensures Kept(h, Unary(op, a))
  {
    hide Traverse, Plain;
    TraverseUnary(op, a);
    RunsOne(h, op, Traverse(a));
    PlainUnknown(h, a);
  }

  /** In the plain host `void` and `delete` yield false wherever their operand has a value. */
  lemma PlainUnknown<V>(h: Host<V>, a: Node<V>)
    ensures Eval(Plain(h), Unary("void", a)) == Dull(h, Eval(Plain(h), a))
    ensures Eval(Plain(h), Unary("delete", a)) == Dull(h, Eval(Plain(h), a))
  {
  }

  lemma BinaryKept<V>(h: Host<V>, op: string, l: Node<V>, r: Node<V>)
    requires Kept(h, l) && Kept(h, r) && op in BINARY
    ensures Kept(h, Binary(op, l, r))
  {
    hide Traverse, Plain, RunBinary, SourceBinary;
    TraverseBinary(op, l, r);
    RunsTwo(h, op, Traverse(l), Traverse(r));
    if Eval(Plain(h), l).Value? && Eval(Plain(h), r).Value? {
      RunsAsSource(h, op, Eval(Plain(h), l).v, Eval(Plain(h), r).v);
    }
  }

  lemma RunsAsSource<V>(h: Host<V>, op: string, l: V, r: V)
    requires op in BINARY
    ensures RunBinary(h, op, l, r) == SourceBinary(Plain(h), op, l, r)
  {
  }

  lemma TraverseBinary<V>(op: string, l: Node<V>, r: Node<V>)
    ensures Traverse(Binary(op, l, r)) == Operator(op, [Traverse(l), Traverse(r)])
    ensures Traverse(Logical(op, l, r)) == Operator(op, [Traverse(l), Traverse(r)])
  {
    hide Weight, WeightAll, TraverseAll;
    TraverseTwo(l, r);
  }

  lemma LogicalKept<V>(h: Host<V>, op: string, l: Node<V>, r: Node<V>)
    requires Kept(h, l) && Kept(h, r) && op in {"&&", "||"}
    ensures Kept(h, Logical(op, l, r))
  {
    hide Traverse, Plain, RunBinary;
    TraverseBinary(op, l, r);
    RunsTwo(h, op, Traverse(l), Traverse(r));
    if Eval(Plain(h), l).Value? && Eval(Plain(h), r).Value? {
      RunsLogical(h, op, Eval(Plain(h), l).v, Eval(Plain(h), r).v);
    }
  }

  lemma RunsLogical<V>(h: Host<V>, op: string, l: V, r: V)
    requires op in {"&&", "||"}
    ensures RunBinary(h, op, l, r) == Value(if h.truthy(l) == (op == "&&") then r else l)
  {
    hide Compared;
    LogicalNotCompared(h, op, l, r);
  }

  lemma ConditionalKept<V>(h: Host<V>, t: Node<V>, c: Node<V>, a: Node<V>)
    requires Lawful(h) && Kept(h, t) && Kept(h, c) && Kept(h, a)
    ensures Kept(h, Conditional(t, c, a))
  {
    hide Traverse, Plain;
    TraverseConditional(t, c, a);
    NegatedTwice(h, Traverse(t));
  }

  lemma NegatedTwice<V>(h: Host<V>, t: Node<V>)
    requires Lawful(h)
    ensures var twice := Eval(h, Operator("!", [Operator("!", [t])]));
            if Eval(h, t).Throw? then twice.Throw? else twice.Value? && h.truthy(twice.v) == h.truthy(Eval(h, t).v)
  {
    RunsOne(h, "!", t);
    RunsOne(h, "!", Operator("!", [t]));
  }

  /** The rewriting keeps every filter in this sense. */
  lemma {:induction false} Rewritten<V>(h: Host<V>, n: Node<V>)
    requires Lawful(h) && Source(n)
    ensures Kept(h, n)
    decreases n
  {
    hide Weight, WeightAll, TraverseAll, Compared, Plain;
    match n
    case Literal(_) =>
    case Identifier(_) =>
    case Native(_, es) => AllRewritten(h, es);
    case Array(es) => AllRewritten(h, es);
    case Attr(token, pipes) => AttrRewritten(h, token, pipes);
    case Unary(op, a) =>
      Rewritten(h, a);
      UnaryKept(h, op, a);
    case Binary(op, l, r) =>
      Rewritten(h, l);
      Rewritten(h, r);
      BinaryKept(h, op, l, r);
    case Logical(op, l, r) =>
      Rewritten(h, l);
      Rewritten(h, r);
      LogicalKept(h, op, l, r);
    case Conditional(t, c, a) =>
      Rewritten(h, t);
      Rewritten(h, c);
      Rewritten(h, a);
      ConditionalKept(h, t, c, a);
  }

  lemma {:induction false} AllRewritten<V>(h: Host<V>, ns: seq<Node<V>>)
    requires Lawful(h) && AllSource(ns)
    ensures EvalAll(h, TraverseAll(ns)) == if AllQuiet(Plain(h), ns) then EvalAll(Plain(h), ns) else None
    decreases ns
  {
    if ns != [] {
      Rewritten(h, ns[0]);
      AllRewritten(h, ns[1..]);
      assert TraverseAll(ns)[1..] == TraverseAll(ns[1..]);
    }
  }

  lemma {:induction false} PipesRewritten<V>(h: Host<V>, v: V, ps: seq<Pipe<V>>)
    requires Lawful(h) && PipesSource(ps)
    ensures EvalPipes(h, v, TraversePipes(ps))
         == if PipesQuiet(Plain(h), ps) then EvalPipes(Plain(h), v, ps) else Throw
    decreases ps, 0
  {
    if ps != [] {
      AllRewritten(h, ps[0].args);
      assert TraversePipes(ps)[1..] == TraversePipes(ps[1..]);
      var args := EvalAll(Plain(h), ps[0].args);
      if args.Some? && h.pipe(ps[0].name, v, args.value).Value? {
        PipesRewritten(h, h.pipe(ps[0].name, v, args.value).v, ps[1..]);
      }
    }
  }

  lemma {:induction false} AttrRewritten<V>(h: Host<V>, token: nat, pipes: seq<Pipe<V>>)
    requires Lawful(h) && PipesSource(pipes)
    ensures Kept(h, Attr(token, pipes))
    decreases pipes, 1
  {
    PipedIsCall<V>(Resolve(token), pipes);
    TraversePiped<V>(Resolve(token), pipes);
    assert Traverse(Attr(token, pipes)) == Piped(Resolve(token), TraversePipes(pipes));
    if h.resolve(token).Value? {
      PipesRewritten(h, h.resolve(token).v, pipes);
    }
    EvalPiped(h, Resolve(token), TraversePipes(pipes));
  }

  /** Without `void` and `delete`. */
  ghost predicate Known<V>(n: Node<V>) {
    match n
    case Native(_, es) => AllKnown(es)
    case Array(es) => AllKnown(es)
    case Attr(_, pipes) => PipesKnown(pipes)
    case Unary(op, a) => op in UNARY && Known(a)
    case Binary(_, l, r) => Known(l) && Known(r)
    case Logical(_, l, r) => Known(l) && Known(r)
    case Conditional(t, c, a) => Known(t) && Known(c) && Known(a)
    case _ => true
  }

  ghost predicate AllKnown<V>(ns: seq<Node<V>>) {
    ns == [] || (Known(ns[0]) && AllKnown(ns[1..]))
  }

  ghost predicate PipesKnown<V>(ps: seq<Pipe<V>>) {
    ps == [] || (AllKnown(ps[0].args) && PipesKnown(ps[1..]))
  }

  /** Then it does not matter what they yield. */
  lemma {:induction false} KnownPlain<V>(h: Host<V>, n: Node<V>)
    requires Known(n) && Source(n)
    ensures Eval(Plain(h), n) == Eval(h, n) && Quiet(Plain(h), n) == Quiet(h, n)
    decreases n
  {
    hide Plain;
    match n
    case Literal(_) =>
    case Identifier(_) =>
    case Native(_, es) => AllKnownPlain(h, es);
    case Array(es) => AllKnownPlain(h, es);
    case Attr(token, pipes) =>
      PipesKnownQuiet(h, pipes);
      if h.resolve(token).Value? {
        PipesKnownPlain(h, h.resolve(token).v, pipes);
      }
    case Unary(op, a) => KnownPlain(h, a);
    case Binary(op, l, r) =>
      KnownPlain(h, l);
      KnownPlain(h, r);
    case Logical(op, l, r) =>
      KnownPlain(h, l);
      KnownPlain(h, r);
    case Conditional(t, c, a) =>
      KnownPlain(h, t);
      KnownPlain(h, c);
      KnownPlain(h, a);
  }

  lemma {:induction false} AllKnownPlain<V>(h: Host<V>, ns: seq<Node<V>>)
    requires AllKnown(ns) && AllSource(ns)
    ensures EvalAll(Plain(h), ns) == EvalAll(h, ns) && AllQuiet(Plain(h), ns) == AllQuiet(h, ns)
    decreases ns
  {
    if ns != [] {
      KnownPlain(h, ns[0]);
      AllKnownPlain(h, ns[1..]);
    }
  }

  lemma {:induction false} PipesKnownQuiet<V>(h: Host<V>, ps: seq<Pipe<V>>)
    requires PipesKnown(ps) && PipesSource(ps)
    ensures PipesQuiet(Plain(h), ps) == PipesQuiet(h, ps)
    decreases ps
  {
    if ps != [] {
      AllKnownPlain(h, ps[0].args);
      PipesKnownQuiet(h, ps[1..]);
    }
  }

  lemma {:induction false} PipesKnownPlain<V>(h: Host<V>, v: V, ps: seq<Pipe<V>>)
    requires PipesKnown(ps) && PipesSource(ps)
    ensures EvalPipes(Plain(h), v, ps) == EvalPipes(h, v, ps)
    decreases ps
  {
    if ps != [] {
      AllKnownPlain(h, ps[0].args);
      var args := EvalAll(h, ps[0].args);
      if args.Some? && h.pipe(ps[0].name, v, args.value).Value? {
        PipesKnownPlain(h, h.pipe(ps[0].name, v, args.value).v, ps[1..]);
      }
    }
  }

  ghost predicate Yields<V>(h: Host<V>, n: Node<V>, elements: seq<int>) {
    Eval(h, n).Value? && h.elements(Eval(h, n).v) == Some(elements)
  }

  /** What the comparison operators yield on iterables, compiled and in the source. */
  ghost predicate BothYield<V>(h: Host<V>, op: string, x: Node<V>, y: Node<V>, answer: bool) {
    && Eval(h, Operator(op, [x, y])) == Value(h.boolean(answer))
    && Eval(h, Binary(op, x, y)) == Value(h.boolean(answer))
  }

  lemma ComparesBoth<V>(h: Host<V>, op: string, x: Node<V>, y: Node<V>, a: seq<int>, b: seq<int>)
    requires Yields(h, x, a) && Yields(h, y, b) && Meaning(op, a, b).Some?
    ensures BothYield(h, op, x, y, Meaning(op, a, b).value)
  {
    hide Meaning;
    RunsTwo(h, op, x, y);
  }

  /** On operands that yield iterables of integers each comparison compares element by element up to the first
      difference. */
  lemma ComparesIterables<V>(h: Host<V>, x: Node<V>, y: Node<V>, a: seq<int>, b: seq<int>)
    requires Yields(h, x, a) && Yields(h, y, b)
    ensures BothYield(h, "==", x, y, a == b) && BothYield(h, "===", x, y, a == b)
    ensures BothYield(h, "!=", x, y, a != b) && BothYield(h, "!==", x, y, a != b)
    ensures BothYield(h, "<", x, y, exists k: nat :: k < |a| && k < |b| && a[..k] == b[..k] && a[k] < b[k])
    ensures BothYield(h, ">", x, y, exists k: nat :: k < |a| && k < |b| && a[..k] == b[..k] && a[k] > b[k])
    ensures BothYield(h, "<=", x, y, !exists k: nat :: k < |a| && k < |b| && a[..k] == b[..k] && a[k] > b[k])
    ensures BothYield(h, ">=", x, y, !exists k: nat :: k < |a| && k < |b| && a[..k] == b[..k] && a[k] < b[k])
  {
    hide BothYield, Yields, Below;
    ComparesBoth(h, "==", x, y, a, b);
    ComparesBoth(h, "===", x, y, a, b);
    ComparesBoth(h, "!=", x, y, a, b);
    ComparesBoth(h, "!==", x, y, a, b);
    ComparesBoth(h, "<", x, y, a, b);
    ComparesBoth(h, ">", x, y, a, b);
    ComparesBoth(h, "<=", x, y, a, b);
    ComparesBoth(h, ">=", x, y, a, b);
    BelowMeans(a, b);
    BelowMeans(b, a);
  }

  /** What negation and the conditional yield, compiled and in the source, on operands that have values. */
  lemma ChoicesMean<V>(h: Host<V>, x: Node<V>, y: Node<V>, z: Node<V>, v: V)
    requires Eval(h, x) == Value(v)
    ensures Eval(h, Operator("!", [x])) == Eval(h, Unary("!", x)) == Value(h.boolean(!h.truthy(v)))
    ensures Eval(h, Conditional(x, y, z)) == if h.truthy(v) then Eval(h, y) else Eval(h, z)
  {
    hide RunUnary, SourceUnary;
    RunsOne(h, "!", x);
    UnariesMean(h, v);
  }

  /** What the logical operators yield. */
  lemma LogicalsMean<V>(h: Host<V>, x: Node<V>, y: Node<V>, v: V, w: V)
    requires Eval(h, x) == Value(v) && Eval(h, y) == Value(w)
    ensures Eval(h, Operator("&&", [x, y])) == Eval(h, Logical("&&", x, y)) == Value(if h.truthy(v) then w else v)
    ensures Eval(h, Operator("||", [x, y])) == Eval(h, Logical("||", x, y)) == Value(if h.truthy(v) then v else w)
  {
    hide RunBinary;
    RunsTwo(h, "&&", x, y);
    RunsTwo(h, "||", x, y);
    RunsLogical(h, "&&", v, w);
    RunsLogical(h, "||", v, w);
  }

  /** The runtime knows neither `void` nor `delete` nor any further operator; lists, calls and pipeline functions
      take their operands in order. */
  lemma OthersMean<V>(h: Host<V>, op: string, x: Node<V>, y: Node<V>, v: V, w: V)
    requires Eval(h, x) == Value(v) && Eval(h, y) == Value(w)
    ensures Eval(h, Unary("void", x)) == Value(h.voided)
    ensures Eval(h, Operator("void", [x])) == Eval(h, Operator("delete", [x])) == Value(h.boolean(false))
    ensures op !in BINARY && op != "&&" && op != "||" ==> Eval(h, Operator(op, [x, y])) == Value(h.boolean(false))
    ensures Eval(h, Array([x, y])) == Value(h.list([v, w])) && Eval(h, Native("()", [x, y])) == h.native("()", [v, w])
    ensures Eval(h, Pipeline("slice", [x, y])) == h.pipe("slice", v, [w])
  {
    hide RunUnary, SourceUnary;
    RunsOne(h, "void", x);
    RunsOne(h, "delete", x);
    RunsTwo(h, op, x, y);
    UnariesMean(h, v);
    EvalTwo(h, x, y);
  }

  lemma UnariesMean<V>(h: Host<V>, v: V)
    ensures RunUnary(h, "!", v) == SourceUnary(h, "!", v) == Value(h.boolean(!h.truthy(v)))
    ensures RunUnary(h, "void", v) == RunUnary(h, "delete", v) == Value(h.boolean(false))
    ensures SourceUnary(h, "void", v) == Value(h.voided)
  {
  }

  /** All others are the host's own on operands that are not both iterable. */
  lemma HostOperators<V>(h: Host<V>, op: string, x: Node<V>, y: Node<V>, v: V, w: V)
    requires Eval(h, x) == Value(v) && Eval(h, y) == Value(w)
    ensures op in {"+", "-", "~", "typeof"} ==>
        Eval(h, Operator(op, [x])) == h.unary(op, v) && Eval(h, Unary(op, x)) == h.unary(op, v)
    ensures op in {"instanceof", "in", "+", "-", "*", "/", "%", "**", "|", "^", "&", "<<", ">>", ">>>"} ==>
        Eval(h, Operator(op, [x, y])) == h.scalar(op, v, w) && Eval(h, Binary(op, x, y)) == h.scalar(op, v, w)
    ensures op in {"==", "===", "!=", "!==", "<", ">", "<=", ">="} ==> h.elements(v).None? || h.elements(w).None? ==>
        Eval(h, Operator(op, [x, y])) == h.scalar(op, v, w) && Eval(h, Binary(op, x, y)) == h.scalar(op, v, w)
  {
    RunsOne(h, op, x);
    RunsTwo(h, op, x, y);
  }

  /** An attribute's functions are applied to its value in order, with their arguments. */
  lemma PipesMean<V>(h: Host<V>, token: nat, f: string, g: string, x: Node<V>, y: Node<V>, u: V, v: V, w: V)
    requires h.resolve(token) == Value(u) && Eval(h, x) == Value(v) && Eval(h, y) == Value(w)
    ensures Eval(h, Attr(token, [])) == Value(u)
    ensures Eval(h, Attr(token, [Pipe(f, [x]), Pipe(g, [y])]))
         == if h.pipe(f, u, [v]).Value? then h.pipe(g, h.pipe(f, u, [v]).v, [w]) else Throw
  {
    var pipes := [Pipe(f, [x]), Pipe(g, [y])];
    assert pipes[1..] == [Pipe(g, [y])] && pipes[1..][1..] == [];
    EvalOne(h, x);
    EvalOne(h, y);
    if h.pipe(f, u, [v]).Value? {
      var t := h.pipe(f, u, [v]).v;
      assert EvalPipes(h, t, pipes[1..]) == if h.pipe(g, t, [w]).Value? then h.pipe(g, t, [w]) else Throw;
    }
  }

  /** Exactly when the compiled filter means the same: no operand that is skipped would throw, and the source
      means the same with `void` and `delete` yielding false; or an operand throws and so does the source.
      Without those operators: when the source throws, or no operand it skips would. */
  lemma MeaningPreserved<V>(h: Host<V>, n: Node<V>)
    requires Lawful(h) && Source(n)
    ensures Eval(h, Traverse(n)) == Eval(h, n)
       <==> if Quiet(Plain(h), n) then Eval(Plain(h), n) == Eval(h, n) else Eval(h, n).Throw?
    ensures Known(n) ==> (Eval(h, Traverse(n)) == Eval(h, n) <==> Eval(h, n).Throw? || Quiet(h, n))
  {
    hide Traverse, Eval, Quiet, Known, Plain;
    Rewritten(h, n);
    if Known(n) {
      KnownPlain(h, n);
    }
  }

  /** Values for one concrete host. */
  datatype Sample = Undefined | Boolean(b: bool) | Number(n: int)

  function Truthy(v: Sample): bool {
    v == Boolean(true) || (v.Number? && v.n != 0)
  }

  /** A host in which `in` throws, as it does for a number on its right. */
  function SampleHost(): Host<Sample> {
    Host(Truthy, b => Boolean(b), Undefined, Undefined, Boolean(true), v => None, vs => Undefined, name => Throw,
         (form, vs) => Throw, name => Value(Boolean(true)), (form, vs) => Value(Boolean(true)), (op, v) => Value(v),
         (op, v, w) => if op == "in" then Throw else Value(v), token => Value(Undefined),
         (name, v, vs) => Value(v))
  }

  /** `false && (1 in 2)` is false in the source and throws when compiled, because the runtime's call
      evaluates the skipped operand. */
  lemma SkippedOperandThrows()
    ensures var skipped := Binary("in", Literal(Number(1)), Literal(Number(2)));
            var n := Logical("&&", Literal(Boolean(false)), skipped);
            && Lawful(SampleHost()) && Source(n) && !Quiet(SampleHost(), n)
            && Eval(SampleHost(), n) == Value(Boolean(false)) && Eval(SampleHost(), Traverse(n)) == Throw
  {
    hide Traverse, Plain;
    var h, no := SampleHost(), Literal(Boolean(false));
    var skipped := Binary("in", Literal(Number(1)), Literal(Number(2)));
    assert Eval(h, skipped).Throw? && Known(skipped) && Source(skipped);
    assert Eval(h, no) == Value(Boolean(false));
    Rewritten(h, skipped);
    KnownPlain(h, skipped);
    TraverseBinary("&&", no, skipped);
    RunsTwo(h, "&&", Traverse(no), Traverse(skipped));
  }

  ghost predicate Total<V(!new)>(h: Host<V>) {
    && (forall op, v :: h.unary(op, v).Value?)
    && (forall op, v, w :: h.scalar(op, v, w).Value?)
    && (forall name :: h.identifier(name).Value?)
    && (forall form, args :: h.native(form, args).Value?)
    && (forall token :: h.resolve(token).Value?)
    && (forall name, v, args :: h.pipe(name, v, args).Value?)
  }

  lemma {:induction false} TotalEvaluates<V(!new)>(h: Host<V>, n: Node<V>)
    requires Total(h) && Source(n)
    ensures Eval(Plain(h), n).Value? && Quiet(Plain(h), n)
    decreases n
  {
    hide Compared, Plain;
    match n
    case Literal(_) =>
    case Identifier(_) =>
    case Native(_, es) => AllTotal(h, es);
    case Array(es) => AllTotal(h, es);
    case Attr(token, pipes) => PipesTotal(h, h.resolve(token).v, pipes);
    case Unary(op, a) =>
      TotalEvaluates(h, a);
      PlainUnknown(h, a);
    case Binary(op, l, r) =>
      TotalEvaluates(h, l);
      TotalEvaluates(h, r);
    case Logical(op, l, r) =>
      TotalEvaluates(h, l);
      TotalEvaluates(h, r);
    case Conditional(t, c, a) =>
      TotalEvaluates(h, t);
      TotalEvaluates(h, c);
      TotalEvaluates(h, a);
  }

  lemma {:induction false} AllTotal<V(!new)>(h: Host<V>, ns: seq<Node<V>>)
    requires Total(h) && AllSource(ns)
    ensures EvalAll(Plain(h), ns).Some? && AllQuiet(Plain(h), ns)
    decreases ns
  {
    if ns != [] {
      TotalEvaluates(h, ns[0]);
      AllTotal(h, ns[1..]);
    }
  }

  lemma {:induction false} PipesTotal<V(!new)>(h: Host<V>, v: V, ps: seq<Pipe<V>>)
    requires Total(h) && PipesSource(ps)
    ensures EvalPipes(Plain(h), v, ps).Value? && PipesQuiet(Plain(h), ps)
    decreases ps
  {
    if ps != [] {
      AllTotal(h, ps[0].args);
      PipesTotal(h, h.pipe(ps[0].name, v, EvalAll(Plain(h), ps[0].args).value).v, ps[1..]);
    }
  }

  /** With operators, queries and pipeline functions that never throw every filter keeps its meaning, but for
      what `void` and `delete` yield. */
  lemma TotalMeaningPreserved<V(!new)>(h: Host<V>, n: Node<V>)
    requires Lawful(h) && Total(h) && Source(n)
    ensures Eval(h, Traverse(n)) == Eval(Plain(h), n)
    ensures Known(n) ==> Eval(h, Traverse(n)) == Eval(h, n)
  {
    hide Traverse, Eval, Quiet, Known, Plain, Total, Lawful;
    TotalEvaluates(h, n);
    Rewritten(h, n);
    if Known(n) {
      KnownPlain(h, n);
    }
  }

  /** `void` at the root, which yields undefined in the source: it is kept only if its operand throws before
      and after the rewriting. */
  lemma VoidLost<V>(h: Host<V>, a: Node<V>)
    requires Lawful(h) && h.voided != h.boolean(false)
    ensures Eval(h, Traverse(Unary("void", a))) == Eval(h, Unary("void", a))
       <==> Eval(h, a).Throw? && Eval(h, Traverse(a)).Throw?
  {
    hide Traverse;
    TraverseUnary("void", a);
    RunsOne(h, "void", Traverse(a));
  }

  /** `delete` at the root is kept only if it fails: it yields false and its operand has a value, or it throws
      and so does its operand, rewritten. */
  lemma DeleteLost<V>(h: Host<V>, a: Node<V>)
    requires Lawful(h)
    ensures Eval(h, Traverse(Unary("delete", a))) == Eval(h, Unary("delete", a))
       <==> Eval(h, Unary("delete", a)) == if Eval(h, Traverse(a)).Throw? then Throw else Value(h.boolean(false))
  {
    hide Traverse;
    TraverseUnary("delete", a);
    RunsOne(h, "delete", Traverse(a));
  }

  /** Below other operators they may be kept: `!void 0` is. */
  lemma NotVoidKept<V>(h: Host<V>, a: Node<V>)
    requires Lawful(h) && !h.truthy(h.voided) && Known(a) && Source(a)
    ensures var n := Unary("!", Unary("void", a));
            Eval(h, Traverse(n)) == Eval(h, n) <==> Eval(h, a).Throw? || Quiet(h, a)
  {
    var n := Unary("!", Unary("void", a));
    assert Source(n);
    KnownPlain(h, a);
    MeaningPreserved(h, n);
  }

  /** What the compiler puts out: native nodes and runtime calls, no operator of the source. */
  ghost predicate Compiled<V>(n: Node<V>) {
    match n
    case Literal(_) => true
    case Identifier(_) => true
    case Native(_, es) => AllCompiled(es)
    case Array(es) => AllCompiled(es)
    case Conditional(t, c, a) => Compiled(t) && Compiled(c) && Compiled(a)
    case Operator(_, args) => AllCompiled(args)
    case Resolve(_) => true
    case Pipeline(_, args) => AllCompiled(args)
    case _ => false
  }

  ghost predicate AllCompiled<V>(ns: seq<Node<V>>) {
    ns == [] || (Compiled(ns[0]) && AllCompiled(ns[1..]))
  }

  lemma {:induction false} TraverseCompiles<V>(n: Node<V>)
    ensures Compiled(Traverse(n))
    decreases Weight(n), 0
  {
    ChildrenLighter(n);
    var entered := Enter(n);
    TraverseAllCompiles(Children(entered));
    EnteredIsNative(n);
    var rewritten := TraverseAll(Children(entered));
    if entered.Conditional? {
      assert AllCompiled(rewritten[1..]) && AllCompiled(rewritten[1..][1..]);
    }
  }

  lemma EnteredIsNative<V>(n: Node<V>)
    ensures !(Enter(n).Unary? || Enter(n).Binary? || Enter(n).Logical? || Enter(n).Attr?)
  {
    if n.Attr? {
      PipedIsCall<V>(Resolve(n.token), n.pipes);
    }
  }

  lemma {:induction false} TraverseAllCompiles<V>(ns: seq<Node<V>>)
    ensures AllCompiled(TraverseAll(ns))
    decreases WeightAll(ns), 1
  {
    if ns != [] {
      TraverseCompiles(ns[0]);
      TraverseAllCompiles(ns[1..]);
      assert TraverseAll(ns)[1..] == TraverseAll(ns[1..]);
    }
  }
}
