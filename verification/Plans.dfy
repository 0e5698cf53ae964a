/** Query plan trees. */
module Plans {
  import opened Wrappers

  /** What the engine says of one node; `total` is its time with its children's, when measured. */
  datatype Info = Info(operation: string, total: Option<real>)

  datatype PlanNode = PlanNode(info: Info, self: Option<real>, children: seq<PlanNode>)

  function Leaf(info: Info): PlanNode {
    PlanNode(info, None, [])
  }

  /** The nodes of a forest, parents before children, in order. */
  function Preorder(f: seq<PlanNode>): seq<Info> {
    if f == [] then [] else [f[0].info] + Preorder(f[0].children) + Preorder(f[1..])
  }

  /** No self time filled in yet. */
  predicate Unfilled(f: seq<PlanNode>) {
    f == [] || (f[0].self.None? && Unfilled(f[0].children) && Unfilled(f[1..]))
  }

  /** How many nodes a forest has. */
  function Size(f: seq<PlanNode>): (n: nat)
    ensures n == |Preorder(f)|
  {
    if f == [] then 0 else 1 + Size(f[0].children) + Size(f[1..])
  }
}
