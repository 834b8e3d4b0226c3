/**
 The linked AVL tree: nodes whose left, right and height fields are rewritten in place. A ghost
 tree value says which node sits where; each method is proved to turn the nodes of one tree value
 into those of the value AvlTree computes.
 */
module AvlNodes {
  import opened Bytes
  import opened Wrappers
  import opened BookSpec
  import opened AvlTree

  class Node {
    var id: nat
    var name: Text
    var lastName: Text
    var left: Node?
    var right: Node?
    var height: nat // one byte in the source: stored modulo 256

    constructor (id: nat, name: Text, lastName: Text)
      ensures this.id == id && this.name == name && this.lastName == lastName
      ensures left == null && right == null && height == 1
    {
      this.id, this.name, this.lastName := id, name, lastName;
      left, right, height := null, null, 1;
    }
  }

  type Shape = Tree<Node>

  ghost function Refs(t: Shape): set<Node> {
    match t
    case Leaf => {}
    case Fork(l, node, _, _, r) => Refs(l) + {node} + Refs(r)
  }

  /** No node occurs twice in the tree. */
  ghost predicate NoShare(t: Shape) {
    match t
    case Leaf => true
    case Fork(l, node, _, _, r) =>
      && NoShare(l) && NoShare(r)
      && node !in Refs(l) && node !in Refs(r) && Refs(l) !! Refs(r)
  }

  ghost predicate Carries(node: Node, c: Contact)
    reads node
  {
    node.id == c.id && node.name == c.name && node.lastName == c.lastName
  }

  lemma {:induction false} RefsAllocated(t: Shape)
    ensures forall o: Node :: o in Refs(t) ==> allocated(o)
  {
    if t.Fork? {
      RefsAllocated(t.left);
      RefsAllocated(t.right);
    }
  }

  /** The nodes below a node, taken apart. */
  lemma Parts(n: Node?, t: Shape)
    requires t.Fork? && Rep(n, t) && NoShare(t)
    ensures n == t.node && Carries(t.node, t.contact) && t.node.height == t.height
    ensures Rep(t.node.left, t.left) && Rep(t.node.right, t.right)
    ensures NoShare(t.left) && NoShare(t.right) && Refs(t.left) !! Refs(t.right)
    ensures t.node !in Refs(t.left) && t.node !in Refs(t.right)
    ensures Refs(t) == Refs(t.left) + {t.node} + Refs(t.right)
    ensures forall o: Node :: o in Refs(t) ==> allocated(o)
  {
    RefsAllocated(t);
  }

  /** The nodes reachable from n are laid out exactly as t says. */
  ghost predicate Rep(n: Node?, t: Shape)
    reads Refs(t)
  {
    match t
    case Leaf => n == null
    case Fork(l, node, c, h, r) =>
      n == node && Carries(node, c) && node.height == h && Rep(node.left, l) && Rep(node.right, r)
  }

  /** Stored heights far below the one-byte limit. */
  predicate Low(t: Shape) {
    Height(t) <= 100
  }

  function NodeHeight(n: Node?): nat
    reads n
  {
    if n == null then 0 else n.height
  }

  function NodeFactor(n: Node): int
    reads n, n.left, n.right
  {
    NodeHeight(n.right) - NodeHeight(n.left)
  }

  lemma RepHeight(n: Node?, t: Shape)
    requires Rep(n, t)
    ensures NodeHeight(n) == Height(t) && (n == null <==> t.Leaf?)
    ensures n != null ==> n in Refs(t)
  {
  }

  method FixHeight(node: Node, ghost l: Shape, ghost r: Shape)
    requires Rep(node.left, l) && Rep(node.right, r) && Height(l) <= 250 && Height(r) <= 250
    requires node !in Refs(l) && node !in Refs(r)
    modifies node`height
    ensures Rep(node.left, l) && Rep(node.right, r)
    ensures node.height == Max(Height(l), Height(r)) + 1
  {
    RepHeight(node.left, l);
    RepHeight(node.right, r);
    var hl := NodeHeight(node.left);
    var hr := NodeHeight(node.right);
    node.height := ((if hl > hr then hl else hr) + 1) % 256;
  }

  method RotateNodeRight(node: Node, ghost t: Shape) returns (root: Node)
    requires t.Fork? && t.left.Fork? && Rep(node, t) && NoShare(t)
    requires Low(t.left.left) && Low(t.left.right) && Low(t.right)
    modifies t.node`left, t.node`height, t.left.node`right, t.left.node`height
    ensures Rep(root, RotateRight(t)) && NoShare(RotateRight(t)) && Refs(RotateRight(t)) == Refs(t)
  {
    Parts(node, t);
    Parts(node.left, t.left);
    root := node.left;
    node.left := root.right;
    assert Rep(root.left, t.left.left);
    root.right := node;
    assert Rep(root.left, t.left.left);
    FixHeight(node, t.left.right, t.right);
    assert Rep(root.left, t.left.left);
    FixHeight(root, t.left.left, RotateRight(t).right);
  }

  method RotateNodeLeft(node: Node, ghost t: Shape) returns (root: Node)
    requires t.Fork? && t.right.Fork? && Rep(node, t) && NoShare(t)
    requires Low(t.right.left) && Low(t.right.right) && Low(t.left)
    modifies t.node`right, t.node`height, t.right.node`left, t.right.node`height
    ensures Rep(root, RotateLeft(t)) && NoShare(RotateLeft(t)) && Refs(RotateLeft(t)) == Refs(t)
  {
    Parts(node, t);
    Parts(node.right, t.right);
    root := node.right;
    node.right := root.left;
    assert Rep(root.right, t.right.right);
    root.left := node;
    assert Rep(root.right, t.right.right);
    FixHeight(node, t.left, t.right.left);
    assert Rep(root.right, t.right.right);
    FixHeight(root, RotateLeft(t).left, t.right.right);
  }

  /** A node and the two subtrees hanging from it, whatever height it has stored. */
  ghost predicate Holding(node: Node, l: Shape, c: Contact, r: Shape)
    reads node, Refs(l), Refs(r)
  {
    && Carries(node, c) && Rep(node.left, l) && Rep(node.right, r)
    && NoShare(l) && NoShare(r)
    && node !in Refs(l) && node !in Refs(r) && Refs(l) !! Refs(r)
  }

  ghost predicate BalanceReady(l: Shape, r: Shape) {
    Avl(l) && Avl(r) && -2 <= Height(r) - Height(l) <= 2 && Low(l) && Low(r)
  }

  method LeanNodeRight(node: Node, ghost t: Shape) returns (root: Node)
    requires t.Fork? && Rep(node, t) && NoShare(t) && Avl(t) && Low(t)
    modifies Refs(t)`left, Refs(t)`right, Refs(t)`height
    ensures Rep(root, LeanRight(t)) && NoShare(LeanRight(t)) && Refs(LeanRight(t)) == Refs(t)
  {
    RepHeight(node.left, t.left);
    RepHeight(node.right, t.right);
    if NodeFactor(node) < 0 {
      root := RotateNodeRight(node, t);
    } else {
      root := node;
    }
  }

  method LeanNodeLeft(node: Node, ghost t: Shape) returns (root: Node)
    requires t.Fork? && Rep(node, t) && NoShare(t) && Avl(t) && Low(t)
    modifies Refs(t)`left, Refs(t)`right, Refs(t)`height
    ensures Rep(root, LeanLeft(t)) && NoShare(LeanLeft(t)) && Refs(LeanLeft(t)) == Refs(t)
  {
    RepHeight(node.left, t.left);
    RepHeight(node.right, t.right);
    if NodeFactor(node) > 0 {
      root := RotateNodeLeft(node, t);
    } else {
      root := node;
    }
  }

  lemma LeanStaysLow(t: Shape)
    requires t.Fork? && Avl(t) && Low(t)
    ensures LeanRight(t).Fork? && Low(LeanRight(t).left) && Low(LeanRight(t).right)
    ensures LeanLeft(t).Fork? && Low(LeanLeft(t).left) && Low(LeanLeft(t).right)
  {
    if BalanceFactor(t) < 0 {
      assert Avl(t.left);
    } else if BalanceFactor(t) > 0 {
      assert Avl(t.right);
    }
  }

  method BalanceRightHeavy(node: Node, ghost l: Shape, ghost c: Contact, ghost r: Shape) returns (root: Node)
    requires Holding(node, l, c, r) && BalanceReady(l, r) && Height(r) == Height(l) + 2
    requires node.height == Fixed(l, node, c, r).height
    modifies Refs(r)`left, Refs(r)`right, Refs(r)`height
    modifies node`left, node`right, node`height
    ensures var b := Balance(l, node, c, r);
            Rep(root, b) && NoShare(b) && Refs(b) == Refs(l) + {node} + Refs(r)
  {
    hide LeanRight, LeanLeft, RotateLeft, RotateRight, Avl;
    LeanStaysLow(r);
    RefsAllocated(l);
    var right := LeanNodeRight(node.right, r);
    node.right := right;
    root := RotateNodeLeft(node, Fork(l, node, c, node.height, LeanRight(r)));
  }

  method BalanceLeftHeavy(node: Node, ghost l: Shape, ghost c: Contact, ghost r: Shape) returns (root: Node)
    requires Holding(node, l, c, r) && BalanceReady(l, r) && Height(l) == Height(r) + 2
    requires node.height == Fixed(l, node, c, r).height
    modifies Refs(l)`left, Refs(l)`right, Refs(l)`height
    modifies node`left, node`right, node`height
    ensures var b := Balance(l, node, c, r);
            Rep(root, b) && NoShare(b) && Refs(b) == Refs(l) + {node} + Refs(r)
  {
    hide LeanRight, LeanLeft, RotateLeft, RotateRight, Avl;
    LeanStaysLow(l);
    RefsAllocated(r);
    var left := LeanNodeLeft(node.left, l);
    node.left := left;
    root := RotateNodeRight(node, Fork(LeanLeft(l), node, c, node.height, r));
  }

  method BalanceNode(node: Node, ghost l: Shape, ghost c: Contact, ghost r: Shape) returns (root: Node)
    requires Holding(node, l, c, r) && BalanceReady(l, r)
    modifies Refs(l)`left, Refs(l)`right, Refs(l)`height, Refs(r)`left, Refs(r)`right, Refs(r)`height
    modifies node`left, node`right, node`height
    ensures var b := Balance(l, node, c, r);
            Rep(root, b) && NoShare(b) && Refs(b) == Refs(l) + {node} + Refs(r)
  {
    FixHeight(node, l, r);
    RepHeight(node.left, l);
    RepHeight(node.right, r);
    if NodeFactor(node) == 2 {
      root := BalanceRightHeavy(node, l, c, r);
    } else if NodeFactor(node) == -2 {
      root := BalanceLeftHeavy(node, l, c, r);
    } else {
      root := node;
    }
  }

  /** phone_book_add below an optional root. */
  method AddNode(head: Node?, newNode: Node, ghost t: Shape, ghost c: Contact) returns (root: Node)
    requires Rep(head, t) && NoShare(t) && Avl(t) && Height(t) <= 90
    requires newNode !in Refs(t) && Carries(newNode, c)
    requires newNode.left == null && newNode.right == null && newNode.height == 1
    modifies Refs(t)`left, Refs(t)`right, Refs(t)`height, newNode`left, newNode`right, newNode`height
    ensures var s := Insert(t, newNode, c);
            Rep(root, s) && NoShare(s) && Refs(s) == Refs(t) + {newNode}
    decreases t, 1
  {
    RepHeight(head, t);
    if head == null {
      return newNode;
    }
    Parts(head, t);
    AvlParts(t);
    if Greater(head.lastName, newNode.lastName) {
      InsertReady(t.left, newNode, c, t.right);
      root := AddLeft(head, newNode, t, c);
    } else {
      InsertReady(t.right, newNode, c, t.left);
      root := AddRight(head, newNode, t, c);
    }
  }

  lemma InsertReady(grown: Shape, node: Node, c: Contact, other: Shape)
    requires Avl(grown) && Avl(other) && -1 <= Height(grown) - Height(other) <= 1
    requires Height(grown) <= 90 && Height(other) <= 90
    ensures BalanceReady(Insert(grown, node, c), other) && BalanceReady(other, Insert(grown, node, c))
  {
    InsertIsAvl(grown, node, c);
  }

  method AddLeft(head: Node, newNode: Node, ghost t: Shape, ghost c: Contact) returns (root: Node)
    requires t.Fork? && Rep(head, t) && NoShare(t) && Avl(t.left) && Height(t.left) <= 90
    requires BalanceReady(Insert(t.left, newNode, c), t.right)
    requires newNode !in Refs(t) && Carries(newNode, c)
    requires newNode.left == null && newNode.right == null && newNode.height == 1
    modifies Refs(t)`left, Refs(t)`right, Refs(t)`height, newNode`left, newNode`right, newNode`height
    ensures var b := Balance(Insert(t.left, newNode, c), head, t.contact, t.right);
            Rep(root, b) && NoShare(b) && Refs(b) == Refs(t) + {newNode}
    decreases t, 0
  {
    hide Insert, Balance, Avl, Rep, NoShare, Refs;
    Parts(head, t);
    var left := AddNode(head.left, newNode, t.left, c);
    head.left := left;
    root := BalanceNode(head, Insert(t.left, newNode, c), t.contact, t.right);
  }

  method AddRight(head: Node, newNode: Node, ghost t: Shape, ghost c: Contact) returns (root: Node)
    requires t.Fork? && Rep(head, t) && NoShare(t) && Avl(t.right) && Height(t.right) <= 90
    requires BalanceReady(t.left, Insert(t.right, newNode, c))
    requires newNode !in Refs(t) && Carries(newNode, c)
    requires newNode.left == null && newNode.right == null && newNode.height == 1
    modifies Refs(t)`left, Refs(t)`right, Refs(t)`height, newNode`left, newNode`right, newNode`height
    ensures var b := Balance(t.left, head, t.contact, Insert(t.right, newNode, c));
            Rep(root, b) && NoShare(b) && Refs(b) == Refs(t) + {newNode}
    decreases t, 0
  {
    hide Insert, Balance, Avl, Rep, NoShare, Refs;
    Parts(head, t);
    var right := AddNode(head.right, newNode, t.right, c);
    head.right := right;
    root := BalanceNode(head, t.left, t.contact, Insert(t.right, newNode, c));
  }

  // ---------- taking nodes out ----------

  lemma {:induction false} MinInfo(n: Node?, t: Shape)
    requires t.Fork? && Rep(n, t)
    ensures FindMin(t).0 in Refs(t) && Carries(FindMin(t).0, FindMin(t).1)
  {
    RepHeight(t.node.left, t.left);
    if t.left.Fork? {
      MinInfo(t.node.left, t.left);
    }
  }

  method FindMinNode(node: Node, ghost t: Shape) returns (min: Node)
    requires t.Fork? && Rep(node, t)
    ensures min == FindMin(t).0
    decreases t
  {
    RepHeight(node.left, t.left);
    if node.left == null {
      min := node;
    } else {
      min := FindMinNode(node.left, t.left);
    }
  }

  method RemoveMinNode(node: Node, ghost t: Shape) returns (rest: Node?)
    requires t.Fork? && Rep(node, t) && NoShare(t) && Avl(t) && Low(t)
    modifies Refs(t)`left, Refs(t)`right, Refs(t)`height
    ensures Rep(rest, RemoveMin(t)) && NoShare(RemoveMin(t))
    ensures Refs(RemoveMin(t)) == Refs(t) - {FindMin(t).0}
    decreases t, 1
  {
    hide NoShare, Avl, Balance;
    Parts(node, t);
    AvlParts(t);
    RepHeight(node.left, t.left);
    if node.left == null {
      return node.right;
    }
    RemoveMinIsAvl(t.left);
    MinInfo(node.left, t.left);
    RemoveMinLeft(node, t);
    rest := BalanceNode(node, RemoveMin(t.left), t.contact, t.right);
  }

  method RemoveMinLeft(node: Node, ghost t: Shape)
    requires t.Fork? && t.left.Fork? && Rep(node, t) && NoShare(t) && Avl(t.left) && Low(t.left)
    modifies Refs(t.left)`left, Refs(t.left)`right, Refs(t.left)`height, node`left
    ensures Holding(node, RemoveMin(t.left), t.contact, t.right)
    ensures Refs(RemoveMin(t.left)) == Refs(t.left) - {FindMin(t.left).0}
    decreases t, 0
  {
    Parts(node, t);
    var left := RemoveMinNode(node.left, t.left);
    node.left := left;
  }

  /** Join what hangs below a node that is being taken out: its in-order successor takes its place. */
  method MergeNodes(left: Node?, right: Node?, ghost l: Shape, ghost r: Shape) returns (rest: Node?)
    requires Rep(left, l) && Rep(right, r) && NoShare(l) && NoShare(r) && Refs(l) !! Refs(r)
    requires Avl(l) && Avl(r) && -1 <= Height(r) - Height(l) <= 1 && Low(l) && Low(r)
    modifies Refs(l)`left, Refs(l)`right, Refs(l)`height, Refs(r)`left, Refs(r)`right, Refs(r)`height
    ensures Rep(rest, Merge(l, r)) && NoShare(Merge(l, r)) && Refs(Merge(l, r)) == Refs(l) + Refs(r)
  {
    RepHeight(right, r);
    if right == null {
      return left;
    }
    RemoveMinIsAvl(r);
    var min := TakeSuccessor(left, right, l, r);
    rest := BalanceNode(min, l, FindMin(r).1, RemoveMin(r));
  }

  method TakeSuccessor(left: Node?, right: Node, ghost l: Shape, ghost r: Shape) returns (min: Node)
    requires r.Fork? && Rep(left, l) && Rep(right, r) && NoShare(l) && NoShare(r) && Refs(l) !! Refs(r)
    requires Avl(r) && Low(r)
    modifies Refs(r)`left, Refs(r)`right, Refs(r)`height
    ensures min == FindMin(r).0 && Holding(min, l, FindMin(r).1, RemoveMin(r))
    ensures Refs(r) == Refs(RemoveMin(r)) + {min}
  {
    hide NoShare, Avl, Refs;
    RefsAllocated(l);
    RefsAllocated(r);
    MinInfo(right, r);
    min := FindMinNode(right, r);
    var rest := RemoveMinNode(right, r);
    min.right := rest;
    min.left := left;
  }

  /** What an extraction leaves in the tree and what it hands out. */
  ghost predicate Extracted(rest: Node?, extracted: Node?, t: Shape, e: Extraction<Node>)
    reads Refs(e.rest), extracted
  {
    Rep(rest, e.rest) && NoShare(e.rest) && TakenFrom(extracted, t, e)
  }

  method ExtractNode(node: Node?, id: nat, ghost t: Shape) returns (rest: Node?, extracted: Node?)
    requires Rep(node, t) && NoShare(t) && Avl(t) && Low(t)
    modifies Refs(t)`left, Refs(t)`right, Refs(t)`height
    ensures Extracted(rest, extracted, t, Extract(t, id))
    decreases t, 2
  {
    RepHeight(node, t);
    if node == null {
      return null, null;
    }
    Parts(node, t);
    AvlParts(t);
    if node.id == id {
      rest := TakeOut(node, t);
      extracted := node;
      return;
    }
    ExtractIsAvl(t.left, id);
    rest, extracted := ExtractBelow(node, id, t);
  }

  method TakeOut(node: Node, ghost t: Shape) returns (rest: Node?)
    requires t.Fork? && Rep(node, t) && NoShare(t) && Avl(t) && Low(t)
    modifies Refs(t)`left, Refs(t)`right, Refs(t)`height
    ensures Extracted(rest, node, t, Extraction(Merge(t.left, t.right), Some((t.node, t.contact))))
  {
    hide Rep, NoShare, Avl, Merge, Refs;
    Parts(node, t);
    AvlParts(t);
    var left, right := node.left, node.right;
    node.left := null;
    node.right := null;
    node.height := 1;
    rest := MergeNodes(left, right, t.left, t.right);
  }

  method ExtractBelow(node: Node, id: nat, ghost t: Shape) returns (rest: Node?, extracted: Node?)
    requires t.Fork? && Rep(node, t) && NoShare(t) && Avl(t) && Low(t) && t.contact.id != id
    modifies Refs(t)`left, Refs(t)`right, Refs(t)`height
    ensures Extracted(rest, extracted, t, Extract(t, id))
    decreases t, 1
  {
    hide Rep, NoShare, Avl, Refs, Balance;
    Parts(node, t);
    AvlParts(t);
    ExtractReady(t, id);
    extracted := ExtractLeft(node, id, t);
    if extracted == null {
      rest, extracted := ExtractFromRight(node, id, t);
    } else {
      rest := BalanceNode(node, Extract(t.left, id).rest, t.contact, t.right);
    }
  }

  lemma ExtractReady(t: Shape, id: nat)
    requires t.Fork? && Avl(t) && Low(t)
    ensures BalanceReady(Extract(t.left, id).rest, t.right) && BalanceReady(t.left, Extract(t.right, id).rest)
    ensures Extract(t.left, id).found.None? ==> Extract(t.left, id).rest == t.left
  {
    ExtractIsAvl(t.left, id);
    ExtractIsAvl(t.right, id);
  }

  /** The node found below, if any, taken out of the subtree it was in. */
  ghost predicate TakenFrom(extracted: Node?, before: Shape, e: Extraction<Node>)
    reads extracted
  {
    match e.found
    case None => extracted == null && Refs(e.rest) == Refs(before)
    case Some((node, c)) =>
      && extracted == node && node in Refs(before) && Refs(e.rest) == Refs(before) - {node}
      && Carries(node, c) && node.left == null && node.right == null && node.height == 1
  }

  method ExtractLeft(node: Node, id: nat, ghost t: Shape) returns (extracted: Node?)
    requires t.Fork? && Rep(node, t) && NoShare(t) && Avl(t.left) && Low(t.left)
    modifies Refs(t.left)`left, Refs(t.left)`right, Refs(t.left)`height, node`left
    ensures Holding(node, Extract(t.left, id).rest, t.contact, t.right)
    ensures TakenFrom(extracted, t.left, Extract(t.left, id))
    decreases t, 0
  {
    Parts(node, t);
    var left;
    left, extracted := ExtractNode(node.left, id, t.left);
    node.left := left;
  }

  method ExtractFromRight(node: Node, id: nat, ghost t: Shape) returns (rest: Node?, extracted: Node?)
    requires t.Fork? && t.contact.id != id && Extract(t.left, id).found.None?
    requires node == t.node && Holding(node, Extract(t.left, id).rest, t.contact, t.right)
    requires Extract(t.left, id).rest == t.left && Avl(t.right) && Low(t.right)
    requires BalanceReady(t.left, Extract(t.right, id).rest)
    modifies Refs(t)`left, Refs(t)`right, Refs(t)`height
    ensures Extracted(rest, extracted, t, Extract(t, id))
    decreases t, 0
  {
    extracted := ExtractRight(node, id, t.left, t.contact, t.right);
    rest := BalanceNode(node, t.left, t.contact, Extract(t.right, id).rest);
  }

  method ExtractRight(node: Node, id: nat, ghost l: Shape, ghost c: Contact, ghost r: Shape) returns (extracted: Node?)
    requires Holding(node, l, c, r) && Avl(r) && Low(r)
    modifies Refs(r)`left, Refs(r)`right, Refs(r)`height, node`right
    ensures Holding(node, l, c, Extract(r, id).rest)
    ensures TakenFrom(extracted, r, Extract(r, id))
    decreases r, 3
  {
    RefsAllocated(l);
    RefsAllocated(r);
    var right;
    right, extracted := ExtractNode(node.right, id, r);
    node.right := right;
  }

  /** phone_book_find_by_id: node, left subtree, right subtree. */
  method FindNode(head: Node?, id: nat, ghost t: Shape) returns (found: Node?)
    requires Rep(head, t)
    ensures found != null <==> Holds(t, id)
    ensures found != null ==> found in Refs(t) && found.id == id
    decreases t
  {
    RefsAllocated(t);
    RepHeight(head, t);
    if head == null {
      return null;
    }
    if head.id == id {
      return head;
    }
    found := FindNode(head.left, id, t.left);
    if found == null {
      found := FindNode(head.right, id, t.right);
    }
  }
}
