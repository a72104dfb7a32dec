/** The mutable nodes of the trie. */
module Nodes {
  import opened Bytes
  import opened Memory

  /** What a slot of a forward node points at. A slot that points at its own node is empty. */
  datatype Child = Null | FwdChild(fwd: Fwd) | LeafChild(leaf: Leaf)

  /** A forward node: one slot per byte value. */
  class Fwd {
    var path: byte
    var parent: Fwd?
    const children: array<Child>
    ghost const prefix: Path

    constructor (ghost prefix: Path, path: byte, parent: Fwd?)
      ensures this.path == path && this.parent == parent && this.prefix == prefix
      ensures children.Length == 256 && fresh(children)
    {
      this.path := path;
      this.parent := parent;
      this.prefix := prefix;
      children := new Child[256];
    }
  }

  /** A leaf: a sorted bucket that serves an aligned block of its parent's slots. */
  class Leaf {
    var path: byte
    var typ: nat
    var parent: Fwd?
    var flat: Flat
    /** Whether the program has deleted this leaf. The program keeps no such mark. */
    var deleted: bool

    constructor (path: byte, typ: nat, parent: Fwd?, flat: Flat)
      ensures this.path == path && this.typ == typ && this.parent == parent && this.flat == flat && !deleted
    {
      deleted := false;
      this.path := path;
      this.typ := typ;
      this.parent := parent;
      this.flat := flat;
    }

    method Assign(path: byte, typ: nat, parent: Fwd?, flat: Flat)
      modifies this`path, this`typ, this`parent, this`flat
      ensures this.path == path && this.typ == typ && this.parent == parent && this.flat == flat
    {
      this.path := path;
      this.typ := typ;
      this.parent := parent;
      this.flat := flat;
    }
  }
}
