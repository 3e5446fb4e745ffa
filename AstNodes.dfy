/** The expression nodes of astnodes.py: three immutable tuples and their recursive
    `to_dict` description. Node payloads are whatever token values the parser stored in
    them, so they are `Lexing.Value`s. */
module AstNodes {
  import opened Lexing

  datatype Node =
    | IntegerLiteral(value: Value)
    | UnaryOpExpression(op: Value, rhs: Node)
    | BinaryOpExpression(lhs: Node, op: Value, rhs: Node)

  /** The dictionaries, strings and integers that `to_dict` builds. */
  datatype Description = Str(s: string) | Num(n: nat) | Dict(entries: map<string, Description>)

  function Describe(v: Value): Description {
    match v
    case Text(s) => Str(s)
    case Int(n) => Num(n)
  }

  /** The name `to_dict` stores under `'type'`. */
  function TypeName(n: Node): string {
    match n
    case IntegerLiteral(_) => "IntegerLiteral"
    case UnaryOpExpression(_, _) => "UnaryOpExpression"
    case BinaryOpExpression(_, _, _) => "BinaryOpExpression"
  }

  /** `to_dict`: a dictionary tagged with the node's class name whose other entries are the
      node's fields, children described recursively. */
  function ToDict(n: Node): (d: Description)
    ensures d.Dict? && "type" in d.entries && d.entries["type"] == Str(TypeName(n))
    ensures n.IntegerLiteral? ==> d.entries.Keys == {"type", "value"} && d.entries["value"] == Describe(n.value)
    ensures n.UnaryOpExpression? ==>
      d.entries.Keys == {"type", "op", "rhs"} && d.entries["op"] == Describe(n.op) && d.entries["rhs"] == ToDict(n.rhs)
    ensures n.BinaryOpExpression? ==>
      && d.entries.Keys == {"type", "lhs", "op", "rhs"} && d.entries["op"] == Describe(n.op)
      && d.entries["lhs"] == ToDict(n.lhs) && d.entries["rhs"] == ToDict(n.rhs)
  {
    match n
    case IntegerLiteral(v) => Dict(map["type" := Str("IntegerLiteral"), "value" := Describe(v)])
    case UnaryOpExpression(op, rhs) =>
      Dict(map["type" := Str("UnaryOpExpression"), "op" := Describe(op), "rhs" := ToDict(rhs)])
    case BinaryOpExpression(lhs, op, rhs) =>
      Dict(map["type" := Str("BinaryOpExpression"), "lhs" := ToDict(lhs), "op" := Describe(op), "rhs" := ToDict(rhs)])
  }

  lemma DescribeInjective(a: Value, b: Value)
    requires Describe(a) == Describe(b)
    ensures a == b
  {
  }

  /** `to_dict` loses nothing: two nodes with equal descriptions are equal, so the
      description determines the whole tree. */
  lemma {:induction false} ToDictInjective(a: Node, b: Node)
    requires ToDict(a) == ToDict(b)
    ensures a == b
  {
    var da, db := ToDict(a).entries, ToDict(b).entries;
    assert da["type"] == db["type"];
    match a
    case IntegerLiteral(v) =>
      assert da["value"] == db["value"];
      DescribeInjective(v, b.value);
    case UnaryOpExpression(op, rhs) =>
      assert da["op"] == db["op"] && da["rhs"] == db["rhs"];
      DescribeInjective(op, b.op);
      ToDictInjective(rhs, b.rhs);
    case BinaryOpExpression(lhs, op, rhs) =>
      assert da["lhs"] == db["lhs"] && da["op"] == db["op"] && da["rhs"] == db["rhs"];
      DescribeInjective(op, b.op);
      ToDictInjective(lhs, b.lhs);
      ToDictInjective(rhs, b.rhs);
  }
}
