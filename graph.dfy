/**
 * `Node` of src/graph.rs: a vertex with an id, a payload and the set of ids
 * it has edges to.
 */
module Graph {
  class Node<Data> {
    var id: nat
    var edges: set<nat>
    var data: Data

    /** `Node::new`: the given id and data, and no edges yet. */
    constructor (id: nat, data: Data)
      ensures this.id == id && this.data == data && edges == {}
    {
      this.id := id;
      this.data := data;
      edges := {};
    }

    /**
     * `add_connection`: inserts `to` into the edge set. Nothing else changes,
     * and inserting an id that is already there changes nothing at all.
     */
    method AddConnection(to: nat)
      modifies this`edges
      ensures edges == old(edges) + {to}
      ensures to in old(edges) ==> edges == old(edges)
      ensures id == old(id) && data == old(data)
    {
      edges := edges + {to};
    }
  }

  /** Adding the same connection twice leaves the same edges as adding it once. */
  method AddConnectionTwice<Data>(node: Node<Data>, to: nat)
    modifies node`edges
    ensures node.edges == old(node.edges) + {to}
    ensures node.id == old(node.id) && node.data == old(node.data)
  {
    node.AddConnection(to);
    ghost var once := node.edges;
    node.AddConnection(to);
    assert node.edges == once;
  }

  /** The edge set after `add_connection` with each of `targets` in turn, starting from `edges`. */
  function Connected(edges: set<nat>, targets: seq<nat>): (r: set<nat>)
    ensures forall t :: t in r <==> t in edges || t in targets
    decreases |targets|
  {
    if targets == [] then edges else Connected(edges + {targets[0]}, targets[1..])
  }

  /**
   * The edges after a series of `add_connection` calls do not depend on the
   * order of the calls or on repeated targets.
   */
  lemma ConnectedIgnoresOrderAndRepeats(edges: set<nat>, a: seq<nat>, b: seq<nat>)
    requires forall t :: t in a <==> t in b
    ensures Connected(edges, a) == Connected(edges, b)
  {
  }
}
