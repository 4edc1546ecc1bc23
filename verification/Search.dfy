/** The search tree rewrite (pkg/db/sql_helpers.go): a parsed search expression becomes a tree
    over SQL columns. Operands are dynamically typed, and a wrong type may be an error or a panic. */
module Search {

  datatype Op = Ident | StringLit | NumberLit | Operator(name: string)

  datatype Operand = Nil | Text(text: string) | Sub(node: Node) | Many(nodes: seq<Node>) | Foreign

  datatype Node = Node(op: Op, left: Operand, right: Operand)

  datatype Outcome<+T> = Good(value: T) | Bad | Panic

  /** The zero value of a node. */
  const EMPTY := Node(Operator(""), Nil, Nil)

  // Names

  const PROPERTIES := "properties."
  const ACCESS := "properties ->>"

  function Trim(s: string): string
  {
    if s == [] then s
    else if s[0] == ' ' then Trim(s[1..])
    else if s[|s| - 1] == ' ' then Trim(s[..|s| - 1])
    else s
  }

  /** What lies between the surrounding blanks: it neither begins nor ends with one. */
  lemma {:induction false} TrimIsCore(s: string) returns (before: string, after: string)
    ensures s == before + Trim(s) + after
    ensures forall c :: c in before || c in after ==> c == ' '
    ensures Trim(s) != [] ==> Trim(s)[0] != ' ' && Trim(s)[|Trim(s)| - 1] != ' '
  {
    before, after := [], [];
    if s != [] && s[0] == ' ' {
      before, after := TrimIsCore(s[1..]);
      assert s == [s[0]] + s[1..];
      before := [' '] + before;
    } else if s != [] && s[|s| - 1] == ' ' {
      before, after := TrimIsCore(s[..|s| - 1]);
      assert s == s[..|s| - 1] + [s[|s| - 1]];
      after := after + [' '];
    }
  }

  /** strings.Split by a dot. */
  function Split(s: string): (parts: seq<string>)
    ensures |parts| == Dots(s) + 1
  {
    if s == [] then [""]
    else
      var rest := Split(s[1..]);
      if s[0] == '.' then [""] + rest else [[s[0]] + rest[0]] + rest[1..]
  }

  function Dots(s: string): nat
  {
    if s == [] then 0 else (if s[0] == '.' then 1 else 0) + Dots(s[1..])
  }

  function GetField(name: string, disallowed: set<string>): Outcome<string>
  {
    var trimmed := Trim(name);
    if ACCESS <= trimmed then Good(trimmed)
    else
      var parts := Split(trimmed);
      if |parts| > 2 then Bad
      else
        var checked := if |parts| > 1 then parts[1] else trimmed;
        if checked in disallowed then Bad else Good(trimmed)
  }

  // What a name means, without reference to how it is checked.

  /** No character but the first ones are cut off, and only where a dot says so. */
  ghost predicate IsTable(s: string, table: string, column: string)
  {
    s == table + "." + column && '.' !in table && '.' !in column
  }

  /** A name that reaches SQL: a property access, a column, or a column of a table. */
  ghost predicate IsAllowed(name: string, disallowed: set<string>)
  {
    var trimmed := Trim(name);
    || ACCESS <= trimmed
    || ('.' !in trimmed && trimmed !in disallowed)
    || exists table, column :: IsTable(trimmed, table, column) && column !in disallowed
  }

  lemma {:induction false} NoDots(s: string)
    ensures Dots(s) == 0 <==> '.' !in s
  {
    if s != [] {
      NoDots(s[1..]);
      assert s == [s[0]] + s[1..];
    }
  }

  lemma {:induction false} OneDot(s: string)
    requires Dots(s) == 1
    ensures IsTable(s, Split(s)[0], Split(s)[1])
  {
    if s[0] == '.' {
      NoDots(s[1..]);
      Whole(s[1..]);
      assert s == "" + "." + s[1..];
    } else {
      OneDot(s[1..]);
      var rest := Split(s[1..]);
      assert s == [s[0]] + s[1..];
      assert s == ([s[0]] + rest[0]) + "." + rest[1];
    }
  }

  lemma {:induction false} Whole(s: string)
    requires Dots(s) == 0
    ensures Split(s) == [s]
  {
    if s != [] {
      Whole(s[1..]);
      assert s == [s[0]] + s[1..];
    }
  }

  lemma {:induction false} TableHasOneDot(s: string, table: string, column: string)
    requires IsTable(s, table, column)
    ensures Dots(s) == 1 && Split(s) == [table, column]
    decreases table
  {
    if table == [] {
      assert s[1..] == column;
      NoDots(column);
      Whole(column);
    } else {
      assert s[0] == table[0] && s[1..] == table[1..] + "." + column;
      assert table == [table[0]] + table[1..];
      TableHasOneDot(s[1..], table[1..], column);
    }
  }

  /** getField accepts exactly the allowed names, and only trims them. */
  lemma GetFieldIff(name: string, disallowed: set<string>)
    ensures GetField(name, disallowed)
         == if IsAllowed(name, disallowed) then Good(Trim(name)) else Bad
  {
    var trimmed := Trim(name);
    NoDots(trimmed);
    if Dots(trimmed) == 1 { OneDot(trimmed); }
    forall table, column | IsTable(trimmed, table, column)
      ensures Dots(trimmed) == 1 && Split(trimmed) == [table, column]
    {
      TableHasOneDot(trimmed, table, column);
    }
  }

  // The rewrite

  /** hasProperty: the type assertion on the name of an identifier panics when it fails. */
  function HasProperty(n: Node): Outcome<bool>
  {
    if !n.left.Sub? || !n.left.node.op.Ident? then Good(false)
    else if !n.left.node.left.Text? then Panic
    else Good(PROPERTIES <= n.left.node.left.text)
  }

  /** The SQL access to a property of the given name. */
  function Access(text: string): string
    requires PROPERTIES <= text
  {
    "properties ->> '" + text[|PROPERTIES|..] + "'"
  }

  /** propertiesNodeConverter. */
  function Convert(n: Node): Node
    requires HasProperty(n) == Good(true)
  {
    Node(n.op, Sub(Node(Ident, Text(Access(n.left.node.left.text)), Nil)), n.right)
  }

  function WalkName(left: Operand, disallowed: set<string>): Outcome<Node>
  {
    if !left.Text? then Bad
    else
      match GetField(left.text, disallowed)
      case Good(field) => Good(Node(Ident, Text(field), Nil))
      case Bad => Bad
      case Panic => Panic
  }

  function Walk(n: Node, disallowed: set<string>): Outcome<Node>
    decreases n, 1
  {
    match HasProperty(n)
    case Panic => Panic
    case Bad => Bad
    case Good(property) =>
      match n.op
      case Ident => WalkName(if property then Nil else n.left, disallowed)
      case Operator(_) =>
        (match WalkLeft(n, property, disallowed)
         case Good(left) => WalkRight(n, left, disallowed)
         case Bad => Bad
         case Panic => Panic)
      case _ => Good(Node(n.op, if property then Convert(n).left else n.left, Nil))
  }

  function WalkLeft(n: Node, property: bool, disallowed: set<string>): Outcome<Node>
    requires property ==> HasProperty(n) == Good(true)
    decreases n, 0
  {
    if property then WalkName(Convert(n).left.node.left, disallowed)
    else
      match n.left
      case Nil => Good(EMPTY)
      case Sub(l) => Walk(l, disallowed)
      case _ => Panic
  }

  function WalkRight(n: Node, left: Node, disallowed: set<string>): Outcome<Node>
    decreases n, 0
  {
    match n.right
    case Nil => Good(Node(n.op, Sub(left), Nil))
    case Sub(r) =>
      (match Walk(r, disallowed)
       case Good(right) => Good(Node(n.op, Sub(left), Sub(right)))
       case Bad => Bad
       case Panic => Panic)
    case Many(nodes) =>
      (match WalkAll(nodes, disallowed)
       case Good(right) => Good(Node(n.op, Sub(left), Many(right)))
       case Bad => Bad
       case Panic => Panic)
    case _ => Bad
  }

  function WalkAll(nodes: seq<Node>, disallowed: set<string>): (r: Outcome<seq<Node>>)
    ensures r.Good? ==> |r.value| == |nodes|
    decreases nodes, 0
  {
    if nodes == [] then Good([])
    else
      match WalkAll(nodes[..|nodes| - 1], disallowed)
      case Bad => Bad
      case Panic => Panic
      case Good(front) =>
        match Walk(nodes[|nodes| - 1], disallowed)
        case Good(last) => Good(front + [last])
        case Bad => Bad
        case Panic => Panic
  }

  /** FieldNameWalk, with its loop over the operands of operators such as IN and BETWEEN. */
  method FieldNameWalk(n: Node, disallowed: set<string>) returns (r: Outcome<Node>)
    ensures r == Walk(n, disallowed)
    decreases n
  {
    var property := HasProperty(n);
    if property.Panic? { return Panic; }
    var left := if property == Good(true) then Convert(n).left else n.left;
    match n.op
    case Ident => return WalkName(left, disallowed);
    case StringLit => return Good(Node(n.op, left, Nil));
    case NumberLit => return Good(Node(n.op, left, Nil));
    case Operator(_) =>
    var l := Good(EMPTY);
    if property == Good(true) {
      l := WalkName(left.node.left, disallowed);
    } else if n.left.Sub? {
      l := FieldNameWalk(n.left.node, disallowed);
    } else if !n.left.Nil? {
      l := Panic;
    }
    if !l.Good? { return l; }
    match n.right {
      case Nil => return Good(Node(n.op, Sub(l.value), Nil));
      case Sub(v) =>
        r := FieldNameWalk(v, disallowed);
        if r.Good? { r := Good(Node(n.op, Sub(l.value), Sub(r.value))); }
      case Many(v) =>
        var rr: seq<Node> := [];
        for i := 0 to |v|
          invariant WalkAll(v[..i], disallowed) == Good(rr)
        {
          assert v[..i + 1][..i] == v[..i];
          r := FieldNameWalk(v[i], disallowed);
          if !r.Good? {
            WalkStops(v, i, disallowed);
            return;
          }
          rr := rr + [r.value];
        }
        assert v[..|v|] == v;
        return Good(Node(n.op, Sub(l.value), Many(rr)));
      case _ => return Bad;
    }
  }

  /** The first operand that fails decides. */
  lemma {:induction false} WalkStops(nodes: seq<Node>, i: nat, disallowed: set<string>)
    requires i < |nodes| && WalkAll(nodes[..i], disallowed).Good?
    requires !Walk(nodes[i], disallowed).Good?
    ensures WalkAll(nodes, disallowed)
         == if Walk(nodes[i], disallowed).Bad? then Bad else Panic
    decreases |nodes|
  {
    var front := nodes[..|nodes| - 1];
    if i < |front| {
      assert front[..i] == nodes[..i];
      WalkStops(front, i, disallowed);
    }
  }

  lemma {:induction false} WalkAllPointwise(nodes: seq<Node>, disallowed: set<string>)
    ensures WalkAll(nodes, disallowed).Good? <==>
            forall i :: 0 <= i < |nodes| ==> Walk(nodes[i], disallowed).Good?
    ensures WalkAll(nodes, disallowed).Good? ==>
              forall i :: 0 <= i < |nodes| ==>
                            Walk(nodes[i], disallowed) == Good(WalkAll(nodes, disallowed).value[i])
    ensures WalkAll(nodes, disallowed).Panic? ==>
              exists i :: 0 <= i < |nodes| && Walk(nodes[i], disallowed).Panic?
    decreases |nodes|
  {
    if nodes != [] { WalkAllPointwise(nodes[..|nodes| - 1], disallowed); }
  }

  lemma AccessIsAllowed(text: string, disallowed: set<string>)
    requires PROPERTIES <= text
    ensures Trim(Access(text)) == Access(text) && IsAllowed(Access(text), disallowed)
  {
    var sql := Access(text);
    assert sql[0] == 'p' && sql[|sql| - 1] == '\'';
  }

  lemma LeftAccepted(n: Node, disallowed: set<string>)
    requires n.op.Operator? && HasProperty(n) == Good(true)
    ensures WalkLeft(n, true, disallowed)
         == Good(Node(Ident, Text(Access(n.left.node.left.text)), Nil))
  {
    AccessIsAllowed(n.left.node.left.text, disallowed);
    GetFieldIff(Access(n.left.node.left.text), disallowed);
  }

  /** An operator on the property `x` becomes one on the text of `x` in the properties column, whatever
      is disallowed. */
  lemma PropertyIsRead(name: string, x: string, after: Operand, disallowed: set<string>)
    ensures Walk(Node(Operator(name), Sub(Node(Ident, Text("properties." + x), after)), Nil), disallowed)
         == Good(Node(Operator(name), Sub(Node(Ident, Text("properties ->> '" + x + "'"), Nil)), Nil))
  {
    var n := Node(Operator(name), Sub(Node(Ident, Text("properties." + x), after)), Nil);
    assert ("properties." + x)[|PROPERTIES|..] == x;
    LeftAccepted(n, disallowed);
  }

  /** No other name is converted. */
  lemma OthersAreNot(name: string, text: string, disallowed: set<string>)
    requires !("properties." <= text)
    ensures Walk(Node(Operator(name), Sub(Node(Ident, Text(text), Nil)), Nil), disallowed)
         == if IsAllowed(text, disallowed)
            then Good(Node(Operator(name), Sub(Node(Ident, Text(Trim(text)), Nil)), Nil)) else Bad
  {
    GetFieldIff(text, disallowed);
    var leaf := Node(Ident, Text(text), Nil);
    var n := Node(Operator(name), Sub(leaf), Nil);
    assert Walk(leaf, disallowed) == WalkName(Text(text), disallowed);
    assert HasProperty(n) == Good(false) && WalkLeft(n, false, disallowed) == Walk(leaf, disallowed);
  }

  /** How a tree fails: a left operand of a type that is not supported and a left identifier without a
      name panic, any other wrong operand is an error. */
  lemma Failures(n: Node, disallowed: set<string>)
    ensures n.op.Ident? && !n.left.Text? && !HasProperty(n).Panic? ==> Walk(n, disallowed) == Bad
    ensures n.left.Sub? && n.left.node.op == Ident && !n.left.node.left.Text? ==> Walk(n, disallowed) == Panic
    ensures n.op.Operator? && !n.left.Nil? && !n.left.Sub? ==> Walk(n, disallowed) == Panic
    ensures n.op.Operator? && n.left.Nil? && (n.right.Text? || n.right.Foreign?) ==> Walk(n, disallowed) == Bad
  {}

  // When the rewrite succeeds

  /** Operands have the types the rewrite supports. */
  ghost predicate IsWellShaped(n: Node)
    decreases n
  {
    match n.op
    case Ident => n.left.Text?
    case Operator(_) =>
      && (n.left.Nil? || (n.left.Sub? && IsWellShaped(n.left.node)))
      && (match n.right
          case Nil => true
          case Sub(r) => IsWellShaped(r)
          case Many(nodes) => forall i :: 0 <= i < |nodes| ==> IsWellShaped(nodes[i])
          case _ => false)
    case _ => !HasProperty(n).Panic?
  }

  /** The tree uses a name, where a left operand `properties.x` is the property access. */
  ghost predicate Mentions(n: Node, name: string)
    decreases n
  {
    match n.op
    case Ident => n.left == Text(name)
    case Operator(_) =>
      || (if HasProperty(n) == Good(true) then name == Access(n.left.node.left.text)
          else n.left.Sub? && Mentions(n.left.node, name))
      || (match n.right
          case Sub(r) => Mentions(r, name)
          case Many(nodes) => exists i :: 0 <= i < |nodes| && Mentions(nodes[i], name)
          case _ => false)
    case _ => false
  }

  ghost predicate NamesAllowed(n: Node, disallowed: set<string>)
  {
    forall name :: Mentions(n, name) ==> IsAllowed(name, disallowed)
  }

  /** The rewrite succeeds exactly on well shaped trees all of whose names are allowed, and on a
      well shaped tree it never panics. */
  lemma {:induction false} SucceedsIff(n: Node, disallowed: set<string>)
    ensures Walk(n, disallowed).Good? <==> IsWellShaped(n) && NamesAllowed(n, disallowed)
    ensures IsWellShaped(n) ==> !Walk(n, disallowed).Panic?
    decreases n
  {
    match n.op
    case Ident =>
      if n.left.Text? {
        GetFieldIff(n.left.text, disallowed);
        assert Mentions(n, n.left.text);
      }
    case Operator(_) =>
      if HasProperty(n) == Good(true) {
        LeftAccepted(n, disallowed);
        AccessIsAllowed(n.left.node.left.text, disallowed);
      } else if n.left.Sub? {
        SucceedsIff(n.left.node, disallowed);
      }
      match n.right {
        case Sub(r) => SucceedsIff(r, disallowed);
        case Many(nodes) =>
          forall i | 0 <= i < |nodes|
            ensures Walk(nodes[i], disallowed).Good? <==> IsWellShaped(nodes[i]) && NamesAllowed(nodes[i], disallowed)
            ensures IsWellShaped(nodes[i]) ==> !Walk(nodes[i], disallowed).Panic?
          {
            SucceedsIff(nodes[i], disallowed);
          }
          WalkAllPointwise(nodes, disallowed);
        case _ =>
      }
    case _ =>
  }

  // What a tree means

  datatype Term =
    | Column(sql: string)
    | Literal(kind: Op, value: Operand)
    | Apply(operator: string, first: Term, rest: seq<Term>, isList: bool)
    | Absent
    | Meaningless

  /** The expression over SQL columns that a tree stands for. In a tree as the user writes it a
      name has spaces around it and a left operand `properties.x` is a property access. */
  ghost function Meaning(n: Node, user: bool): Term
    decreases n, 1
  {
    match n.op
    case Ident =>
      if !n.left.Text? then Meaningless
      else Column(if user then Trim(n.left.text) else n.left.text)
    case Operator(name) =>
      var first := MeaningOfFirst(n, user);
      (match n.right
       case Nil => Apply(name, first, [], false)
       case Sub(r) => Apply(name, first, [Meaning(r, user)], false)
       case Many(nodes) =>
         Apply(name, first, seq(|nodes|, i requires 0 <= i < |nodes| => Meaning(nodes[i], user)), true)
       case _ => Meaningless)
    case _ => Literal(n.op, if user && HasProperty(n) == Good(true) then Convert(n).left else n.left)
  }

  ghost function MeaningOfFirst(n: Node, user: bool): Term
    decreases n, 0
  {
    if user && HasProperty(n) == Good(true) then Column(Access(n.left.node.left.text))
    else
      match n.left
      case Nil => Absent
      case Sub(l) => Meaning(l, user)
      case _ => Meaningless
  }

  /** Every operator has a first operand. */
  ghost predicate IsComplete(n: Node)
    decreases n
  {
    n.op.Operator? ==>
      && n.left.Sub? && IsComplete(n.left.node)
      && (match n.right
          case Sub(r) => IsComplete(r)
          case Many(nodes) => forall i :: 0 <= i < |nodes| ==> IsComplete(nodes[i])
          case _ => true)
  }

  /** The rewritten tree, read as SQL, means what the user's tree means, if and only if no operator
      in it lacks its first operand: such an operator is given an empty node. */
  lemma {:induction false} MeaningPreservedIff(n: Node, disallowed: set<string>)
    requires Walk(n, disallowed).Good?
    ensures Meaning(Walk(n, disallowed).value, false) == Meaning(n, true) <==> IsComplete(n)
    decreases n
  {
    var m := Walk(n, disallowed).value;
    match n.op
    case Ident => GetFieldIff(n.left.text, disallowed);
    case Operator(_) =>
      if HasProperty(n) == Good(true) {
        LeftAccepted(n, disallowed);
      } else if n.left.Sub? {
        MeaningPreservedIff(n.left.node, disallowed);
      } else {
        assert m.left == Sub(EMPTY);
      }
      assert MeaningOfFirst(m, false) == MeaningOfFirst(n, true) <==> n.left.Sub? && IsComplete(n.left.node);
      match n.right {
        case Sub(r) =>
          MeaningPreservedIff(r, disallowed);
          assert [Meaning(m.right.node, false)] == [Meaning(r, true)] <==> IsComplete(r);
        case Many(nodes) =>
          WalkAllPointwise(nodes, disallowed);
          forall i | 0 <= i < |nodes|
            ensures Meaning(m.right.nodes[i], false) == Meaning(nodes[i], true) <==> IsComplete(nodes[i])
          {
            MeaningPreservedIff(nodes[i], disallowed);
          }
          SameRest(m, n);
        case _ =>
      }
    case _ =>
  }

  lemma SameRest(m: Node, n: Node)
    requires m.op == n.op && n.op.Operator?
    requires m.right.Many? && n.right.Many? && |m.right.nodes| == |n.right.nodes|
    ensures Meaning(m, false).rest == Meaning(n, true).rest <==>
            forall i :: 0 <= i < |n.right.nodes| ==>
                          Meaning(m.right.nodes[i], false) == Meaning(n.right.nodes[i], true)
  {
    var a, b := Meaning(m, false).rest, Meaning(n, true).rest;
    assert forall i :: 0 <= i < |a| ==> a[i] == Meaning(m.right.nodes[i], false);
    assert forall i :: 0 <= i < |b| ==> b[i] == Meaning(n.right.nodes[i], true);
  }

  /** The same operators over the same number of operands. */
  ghost predicate SameShape(m: Node, n: Node)
    decreases n
  {
    && m.op == n.op
    && (n.op.Operator? ==>
          && (n.left.Sub? ==> m.left.Sub? && SameShape(m.left.node, n.left.node))
          && (match n.right
              case Sub(r) => m.right.Sub? && SameShape(m.right.node, r)
              case Many(nodes) =>
                && m.right.Many? && |m.right.nodes| == |nodes|
                && forall i :: 0 <= i < |nodes| ==> SameShape(m.right.nodes[i], nodes[i])
              case _ => m.right == n.right))
    && (!n.op.Operator? ==> m.right.Nil?)
  }

  lemma {:induction false} ShapePreserved(n: Node, disallowed: set<string>)
    requires Walk(n, disallowed).Good?
    ensures SameShape(Walk(n, disallowed).value, n)
    decreases n
  {
    if n.op.Operator? {
      if HasProperty(n) == Good(true) {
        LeftAccepted(n, disallowed);
      } else if n.left.Sub? {
        ShapePreserved(n.left.node, disallowed);
      }
      if n.right.Sub? {
        ShapePreserved(n.right.node, disallowed);
      } else if n.right.Many? {
        var m := Walk(n, disallowed).value;
        WalkAllPointwise(n.right.nodes, disallowed);
        forall i | 0 <= i < |n.right.nodes| ensures SameShape(m.right.nodes[i], n.right.nodes[i]) {
          ShapePreserved(n.right.nodes[i], disallowed);
        }
      }
    }
  }
}
