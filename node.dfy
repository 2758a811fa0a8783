/** A node of the code graph: a repository, file, function, ... with its parent and children. */
module CoreNode {
  import opened Common

  datatype NodeType =
    | Repository
    | File
    | Function
    | Struct
    | Module
    | Protocol
    | Model
    | Interface
    | Custom(text: string)

  /**
   * `Node`. The id (a fresh uuid in the source) is passed in. Fields that no
   * operation of the crate rewrites are `const`.
   */
  class Node {
    const id: string
    const name: string
    const nodeType: NodeType
    const sourcePath: string
    var hash: string
    var depth: nat
    var parentId: Option<string>
    var children: set<string>

    /** `Node::new`: depth 0, no parent, no children, empty hash. */
    constructor (id: string, name: string, nodeType: NodeType, sourcePath: string)
      ensures this.id == id && this.name == name && this.nodeType == nodeType && this.sourcePath == sourcePath
      ensures hash == "" && depth == 0 && parentId == None && children == {}
    {
      this.id := id;
      this.name := name;
      this.nodeType := nodeType;
      this.sourcePath := sourcePath;
      hash := "";
      depth := 0;
      parentId := None;
      children := {};
    }

    /** `add_child`: insert into the child set; nothing else changes. */
    method AddChild(childId: string)
      modifies this`children
      ensures children == old(children) + {childId}
      ensures childId in children
    {
      children := children + {childId};
    }

    /** `remove_child`: remove from the child set; an absent id changes nothing. */
    method RemoveChild(childId: string)
      modifies this`children
      ensures children == old(children) - {childId}
      ensures childId !in children
      ensures childId !in old(children) ==> children == old(children)
    {
      children := children - {childId};
    }

    /** `with_hash`: the builder sets only the hash and hands the node back. */
    method WithHash(hash: string) returns (self: Node)
      modifies this`hash
      ensures self == this && this.hash == hash
    {
      this.hash := hash;
      self := this;
    }

    /** `with_depth`: the builder sets only the depth and hands the node back. */
    method WithDepth(depth: nat) returns (self: Node)
      modifies this`depth
      ensures self == this && this.depth == depth
    {
      this.depth := depth;
      self := this;
    }
  }

  /** Adding a child twice leaves the same child set as adding it once. */
  method AddChildIdempotent(n: Node, childId: string)
    modifies n
    ensures n.children == old(n.children) + {childId}
  {
    n.AddChild(childId);
    ghost var once := n.children;
    n.AddChild(childId);
    assert n.children == once;
  }

  /** Adding a child that was not there and removing it again restores the child set. */
  method AddThenRemoveRestores(n: Node, childId: string)
    requires childId !in n.children
    modifies n
    ensures n.children == old(n.children)
    ensures n.hash == old(n.hash) && n.depth == old(n.depth) && n.parentId == old(n.parentId)
  {
    n.AddChild(childId);
    n.RemoveChild(childId);
  }
}
