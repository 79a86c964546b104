/**
 * Nodes of the syntax tree (Node.kt), and the collapsing rule that decides
 * the shape of a delimited span.
 */
module Nodes {
  import opened Wrappers

  datatype Node =
    | Text(text: string)
    | Command(name: string, attribute: Option<Node>, arguments: seq<Node>)
    | Group(nodes: seq<Node>)

  /** The nodes a delimited span stands for: a group's children, or the node itself. */
  function Members(x: Node): seq<Node> {
    if x.Group? then x.nodes else [x]
  }

  /**
   * The node for a delimited span holding `ns`: the node itself when there is
   * exactly one, otherwise a group of all of them (also when there are none).
   * A single node is kept as it is, group or not; otherwise nothing is lost
   * (the span's nodes are the members of the result), and well-shaped nodes
   * stay well-shaped.
   */
  function Collapse(ns: seq<Node>): (x: Node)
    ensures |ns| == 1 ==> x == ns[0]
    ensures !(|ns| == 1 && ns[0].Group?) ==> Members(x) == ns
    ensures AllWellShaped(ns) ==> WellShaped(x)
  {
    if |ns| == 1 then ns[0] else Group(ns)
  }

  /**
   * The trees the parser builds: every group, at any depth, has a number of
   * children other than one.
   */
  predicate WellShaped(x: Node)
    decreases x
  {
    match x
    case Text(_) => true
    case Command(_, a, args) => (a.Some? ==> WellShaped(a.value)) && AllWellShaped(args)
    case Group(ns) => |ns| != 1 && AllWellShaped(ns)
  }

  /** Every node of a sequence is well-shaped. */
  predicate AllWellShaped(ns: seq<Node>)
    decreases ns
  {
    |ns| == 0 || (WellShaped(ns[0]) && AllWellShaped(ns[1..]))
  }

  /** `AllWellShaped` says exactly that each element is well-shaped. */
  lemma {:induction false} AllWellShapedIndex(ns: seq<Node>)
    ensures AllWellShaped(ns) <==> forall i :: 0 <= i < |ns| ==> WellShaped(ns[i])
    decreases |ns|
  {
    if |ns| > 0 {
      AllWellShapedIndex(ns[1..]);
      assert forall i :: 1 <= i < |ns| ==> ns[i] == ns[1..][i - 1];
    }
  }

  /** Collapsing undoes `Members` on every well-shaped node. */
  lemma CollapseMembers(x: Node)
    requires WellShaped(x)
    ensures Collapse(Members(x)) == x
  {
  }
}
