/** The display filter compiler: the rewriting of a filter's syntax tree into calls of the runtime,
    and what both trees evaluate to. */
module FilterCompiler {
  /** Syntax trees before, during and after the rewriting.  `Native` stands for the other forms that
      evaluate all their operands, such as calls and member accesses.  `Operator`, `Resolve` and
      `Pipeline` are the calls `__operator(opcode, ...)`, `__resolve(token)` and
      `__pipeline(name, self, ...)`. */
  datatype Node<V> =
    | Literal(value: V)
    | Identifier(name: string)
    | Native(form: string, operands: seq<Node<V>>)
    | Array(elements: seq<Node<V>>)
    | Attr(token: nat, pipes: seq<Pipe<V>>)
    | Unary(op: string, argument: Node<V>)
    | Binary(op: string, left: Node<V>, right: Node<V>)
    | Logical(op: string, left: Node<V>, right: Node<V>)
    | Conditional(test: Node<V>, consequent: Node<V>, alternate: Node<V>)
    | Operator(op: string, arguments: seq<Node<V>>)
    | Resolve(token: nat)
    | Pipeline(name: string, arguments: seq<Node<V>>)

  datatype Pipe<V> = Pipe(name: string, args: seq<Node<V>>)

  // ---- rewriting

  /** Bounds the visits: a conditional's test is wrapped before it is visited. */
  function Weight<V>(n: Node<V>): (w: nat)
    ensures 0 < w
  {
    match n
    case Literal(_) => 1
    case Identifier(_) => 1
    case Native(_, es) => 1 + WeightAll(es)
    case Array(es) => 1 + WeightAll(es)
    case Attr(_, pipes) => 2 + WeightPipes(pipes)
    case Unary(_, a) => 2 + Weight(a)
    case Binary(_, l, r) => 2 + Weight(l) + Weight(r)
    case Logical(_, l, r) => 2 + Weight(l) + Weight(r)
    case Conditional(t, c, a) => 4 + Weight(t) + Weight(c) + Weight(a)
    case Operator(_, args) => 1 + WeightAll(args)
    case Resolve(_) => 1
    case Pipeline(_, args) => 1 + WeightAll(args)
  }

  function WeightAll<V>(ns: seq<Node<V>>): nat {
    if ns == [] then 0 else Weight(ns[0]) + WeightAll(ns[1..])
  }

  function WeightPipes<V>(ps: seq<Pipe<V>>): nat {
    if ps == [] then 0 else 1 + WeightAll(ps[0].args) + WeightPipes(ps[1..])
  }

  /** One call of `__pipeline` around the other, the first function innermost. */
  function Piped<V>(expr: Node<V>, pipes: seq<Pipe<V>>): Node<V>
    decreases |pipes|
  {
    if pipes == [] then expr else Piped(Pipeline(pipes[0].name, [expr] + pipes[0].args), pipes[1..])
  }

  lemma {:induction false} PipedWeight<V>(expr: Node<V>, pipes: seq<Pipe<V>>)
    ensures Weight(Piped(expr, pipes)) == Weight(expr) + WeightPipes(pipes)
    ensures expr.Resolve? || expr.Pipeline? ==> Piped(expr, pipes).Resolve? || Piped(expr, pipes).Pipeline?
    decreases |pipes|
  {
    if pipes != [] {
      var args := [expr] + pipes[0].args;
      assert args[1..] == pipes[0].args;
      PipedWeight(Pipeline(pipes[0].name, args), pipes[1..]);
    }
  }

  /** The loop that builds the calls for an attribute. */
  method BuildAttr<V>(token: nat, pipeline: seq<Pipe<V>>) returns (expr: Node<V>)
    ensures expr == Enter(Attr(token, pipeline))
  {
    expr := Resolve(token);
    var i := 0;
    assert pipeline[0..] == pipeline;
    while i < |pipeline|
      invariant i <= |pipeline| && Piped(expr, pipeline[i..]) == Piped(Resolve(token), pipeline)
    {
      assert pipeline[i..][1..] == pipeline[i + 1..];
      expr := Pipeline(pipeline[i].name, [expr] + pipeline[i].args);
      i := i + 1;
    }
  }

  /** What the visitor puts in place of a node; its children are visited afterwards, those of the
      replacement included. */
  function Enter<V>(n: Node<V>): Node<V> {
    match n
    case Binary(op, l, r) => Operator(op, [l, r])
    case Logical(op, l, r) => Operator(op, [l, r])
    case Unary(op, a) => Operator(op, [a])
    case Conditional(t, c, a) => Conditional(Unary("!", Operator("!", [t])), c, a)
    case Attr(token, pipes) => Piped(Resolve(token), pipes)
    case _ => n
  }

  /** The nodes visited below a node, after it was replaced. */
  function Children<V>(n: Node<V>): seq<Node<V>> {
    match n
    case Native(_, es) => es
    case Array(es) => es
    case Unary(_, a) => [a]
    case Binary(_, l, r) => [l, r]
    case Logical(_, l, r) => [l, r]
    case Conditional(t, c, a) => [t, c, a]
    case Operator(_, args) => args
    case Pipeline(_, args) => args
    case _ => []
  }

  lemma WeightNone<V>()
    ensures WeightAll<V>([]) == 0
  {
  }

  lemma WeightTwo<V>(a: Node<V>, b: Node<V>)
    ensures WeightAll([a]) == Weight(a)
    ensures WeightAll([a, b]) == Weight(a) + Weight(b)
  {
    assert [a][1..] == [] && [a, b][1..] == [b] && [b][1..] == [];
    assert WeightAll([b]) == Weight(b);
  }

  lemma WeightThree<V>(a: Node<V>, b: Node<V>, c: Node<V>)
    ensures WeightAll([a, b, c]) == Weight(a) + Weight(b) + Weight(c)
  {
    WeightTwo(b, c);
    assert [a, b, c][1..] == [b, c];
  }

  lemma ChildrenLighter<V>(n: Node<V>)
    ensures WeightAll(Children(Enter(n))) < Weight(n)
  {
    hide WeightAll, WeightPipes, Piped;
    WeightNone<V>();
    match n
    case Unary(_, a) => WeightTwo(a, a);
    case Binary(_, l, r) => WeightTwo(l, r);
    case Logical(_, l, r) => WeightTwo(l, r);
    case Conditional(t, c, a) =>
      WeightTwo(t, t);
      WeightThree(Unary("!", Operator("!", [t])), c, a);
    case Attr(token, pipes) =>
      PipedWeight(Resolve(token), pipes);
      ChildrenBelow(Piped(Resolve(token), pipes));
    case _ =>
  }

  lemma ChildrenBelow<V>(n: Node<V>)
    requires n.Resolve? || n.Pipeline?
    ensures WeightAll(Children(n)) < Weight(n)
  {
  }

  function WithChildren<V>(n: Node<V>, children: seq<Node<V>>): Node<V>
    requires |children| == |Children(n)|
  {
    match n
    case Native(form, _) => Native(form, children)
    case Array(_) => Array(children)
    case Unary(op, _) => Unary(op, children[0])
    case Binary(op, _, _) => Binary(op, children[0], children[1])
    case Logical(op, _, _) => Logical(op, children[0], children[1])
    case Conditional(_, _, _) => Conditional(children[0], children[1], children[2])
    case Operator(op, _) => Operator(op, children)
    case Pipeline(name, _) => Pipeline(name, children)
    case _ => n
  }

  /** `estraverse.replace` with the compiler's visitor. */
  function Traverse<V>(n: Node<V>): Node<V>
    decreases Weight(n), 0
  {
    ChildrenLighter(n);
    var entered := Enter(n);
    WithChildren(entered, TraverseAll(Children(entered)))
  }

  function TraverseAll<V>(ns: seq<Node<V>>): (r: seq<Node<V>>)
    ensures |r| == |ns|
    decreases WeightAll(ns), 1
  {
    if ns == [] then [] else [Traverse(ns[0])] + TraverseAll(ns[1..])
  }
}
