/** The doubly-linked phone book: the same operations on nodes chained by next and previous. */
module ListBook {
  import opened Bytes
  import opened Wrappers
  import opened BookSpec
  import opened BookRuns
  import opened IdManager

  class Node {
    var id: nat
    var name: Text
    var lastName: Text
    var next: Node?
    var previous: Node?

    constructor (id: nat, name: Text, lastName: Text)
      ensures this.id == id && this.name == name && this.lastName == lastName
      ensures next == null && previous == null
    {
      this.id, this.name, this.lastName := id, name, lastName;
      next, previous := null, null;
    }
  }

  function ContactOf(node: Node): Contact
    reads node`id, node`name, node`lastName
  {
    Contact(node.id, node.name, node.lastName)
  }

  /** The contacts of a sequence of nodes. */
  function ContactsOf(nodes: seq<Node>): seq<Contact>
    reads nodes`id, nodes`name, nodes`lastName
  {
    if nodes == [] then [] else [ContactOf(nodes[0])] + ContactsOf(nodes[1..])
  }

  lemma {:induction false} ContactsOfAt(nodes: seq<Node>)
    ensures |ContactsOf(nodes)| == |nodes|
    ensures forall i :: 0 <= i < |nodes| ==> ContactsOf(nodes)[i] == ContactOf(nodes[i])
  {
    if nodes != [] {
      ContactsOfAt(nodes[1..]);
    }
  }

  function At(nodes: seq<Node>, i: int): Node? {
    if 0 <= i < |nodes| then nodes[i] else null
  }

  /** next links run forward through the nodes and previous links mirror them. */
  ghost predicate Chained(head: Node?, nodes: seq<Node>)
    reads nodes
  {
    && head == At(nodes, 0)
    && (forall i, j :: 0 <= i < j < |nodes| ==> nodes[i] != nodes[j])
    && (forall i {:trigger nodes[i].next} :: 0 <= i < |nodes| - 1 ==> nodes[i].next == nodes[i + 1])
    && (forall i {:trigger nodes[i].previous} :: 1 <= i < |nodes| ==> nodes[i].previous == nodes[i - 1])
    && (nodes != [] ==> nodes[0].previous == null && nodes[|nodes| - 1].next == null)
  }

  ghost function Spliced(nodes: seq<Node>, k: nat, node: Node): seq<Node>
    requires k <= |nodes|
  {
    nodes[..k] + [node] + nodes[k..]
  }

  ghost function Removed(nodes: seq<Node>, k: nat): seq<Node>
    requires k < |nodes|
  {
    nodes[..k] + nodes[k + 1..]
  }

  lemma ContactsOfSpliced(nodes: seq<Node>, k: nat, node: Node)
    requires k <= |nodes|
    ensures k <= |ContactsOf(nodes)|
    ensures ContactsOf(Spliced(nodes, k, node)) == ContactsOf(nodes)[..k] + [ContactOf(node)] + ContactsOf(nodes)[k..]
  {
    ContactsOfAt(nodes);
    ContactsOfAt(Spliced(nodes, k, node));
  }

  lemma ContactsOfRemoved(nodes: seq<Node>, k: nat)
    requires k < |nodes|
    ensures k < |ContactsOf(nodes)|
    ensures ContactsOf(Removed(nodes, k)) == ContactsOf(nodes)[..k] + ContactsOf(nodes)[k + 1..]
  {
    ContactsOfAt(nodes);
    ContactsOfAt(Removed(nodes, k));
  }

  /** What a chain says of each node. */
  lemma Links(head: Node?, nodes: seq<Node>)
    requires Chained(head, nodes)
    ensures head == At(nodes, 0) && forall i, j :: 0 <= i < j < |nodes| ==> nodes[i] != nodes[j]
    ensures forall i {:trigger nodes[i].next} :: 0 <= i < |nodes| ==> nodes[i].next == At(nodes, i + 1)
    ensures forall i {:trigger nodes[i].previous} :: 0 <= i < |nodes| ==> nodes[i].previous == At(nodes, i - 1)
  {
  }

  /** Links that lead past one node chain the others. */
  lemma ChainWithout(head: Node?, all: seq<Node>, k: nat)
    requires k < |all| && forall i, j :: 0 <= i < j < |all| ==> all[i] != all[j]
    requires head == if k == 0 then At(all, 1) else all[0]
    requires forall i {:trigger all[i].next} :: 0 <= i < |all| && i != k ==>
      all[i].next == At(all, if i + 1 == k then i + 2 else i + 1)
    requires forall i {:trigger all[i].previous} :: 0 <= i < |all| && i != k ==>
      all[i].previous == At(all, if i - 1 == k then i - 2 else i - 1)
    ensures Chained(head, Removed(all, k)) && all[k] !in Removed(all, k)
  {
    var nodes := Removed(all, k);
    forall j | 0 <= j < |nodes|
      ensures nodes[j].next == At(nodes, j + 1) && nodes[j].previous == At(nodes, j - 1) && nodes[j] != all[k]
    {
      var i := if j < k then j else j + 1;
      assert nodes[j] == all[i];
      assert all[i].next == At(all, if i + 1 == k then i + 2 else i + 1);
      assert all[i].previous == At(all, if i - 1 == k then i - 2 else i - 1);
    }
    assert forall j :: 0 <= j < |nodes| ==> nodes[j] == all[if j < k then j else j + 1];
  }

  class PhoneBook {
    var head: Node?
    const ids: IdManager
    ghost var nodes: seq<Node>

    ghost function View(): Book
      reads this, ids, nodes
    {
      Book(ContactsOf(nodes), ids.nextId, ids.freeIds)
    }

    ghost predicate Linked()
      reads this, nodes
    {
      Chained(head, nodes)
    }

    ghost predicate Valid()
      reads this, ids, nodes
    {
      Linked() && BookInvariant(View())
    }

    constructor ()
      ensures Valid() && fresh(ids) && nodes == [] && View() == EMPTY_BOOK
    {
      head := null;
      ids := new IdManager();
      nodes := [];
    }

    method LinkOnly(node: Node)
      requires Linked() && head == null && node.next == null && node.previous == null
      modifies this`head, this`nodes
      ensures Linked() && nodes == Spliced(old(nodes), 0, node)
      ensures 0 == old(InsertIndex(ContactsOf(nodes), ContactOf(node)))
    {
      assert nodes == [];
      head := node;
      nodes := Spliced(nodes, 0, node);
    }

    method LinkFirst(node: Node)
      requires Linked() && node !in nodes && nodes != [] && node.next == null && node.previous == null
      modifies this`head, this`nodes, node`next, nodes`previous
      ensures Linked() && nodes == Spliced(old(nodes), 0, node)
    {
      node.next := head;
      head.previous := node;
      head := node;
      nodes := Spliced(nodes, 0, node);
    }

    method LinkLast(node: Node)
      requires Linked() && node !in nodes && nodes != [] && node.next == null && node.previous == null
      modifies this`nodes, node`previous, nodes`next
      ensures Linked() && nodes == Spliced(old(nodes), old(|nodes|), node)
    {
      var tail: Node := head;
      ghost var j := 0;
      while tail.next != null
        invariant 0 <= j < |nodes| && tail == nodes[j]
        decreases |nodes| - j
      {
        tail := tail.next;
        j := j + 1;
      }
      tail.next := node;
      node.previous := tail;
      nodes := Spliced(nodes, |nodes|, node);
    }

    method LinkBefore(current: Node, node: Node, ghost k: nat)
      requires Linked() && node !in nodes && 0 < k < |nodes| && current == nodes[k]
      modifies this`nodes, node`next, node`previous, nodes`previous, nodes`next
      ensures Linked() && nodes == Spliced(old(nodes), k, node)
    {
      node.previous := current.previous;
      node.next := current;
      current.previous.next := node;
      current.previous := node;
      nodes := Spliced(nodes, k, node);
    }

    /** The first node with a greater last name, or null past the tail. */
    method FindPlace(node: Node) returns (current: Node?, ghost k: nat)
      requires Linked()
      ensures k == InsertIndex(ContactsOf(nodes), ContactOf(node)) && k <= |nodes| && current == At(nodes, k)
    {
      ghost var s, c := ContactsOf(nodes), ContactOf(node);
      ContactsOfAt(nodes);
      current := head;
      k := 0;
      while current != null && !Greater(current.lastName, node.lastName)
        invariant 0 <= k <= |nodes| && current == At(nodes, k)
        invariant forall i :: 0 <= i < k ==> !Greater(s[i].lastName, c.lastName)
        decreases |nodes| - k
      {
        current := current.next;
        k := k + 1;
      }
      SpliceIsInsertSorted(s, c, k);
    }

    /** phone_book_add: before the first greater last name, else at the tail. */
    method Add(node: Node) returns (ghost k: nat)
      requires Linked() && node !in nodes
      modifies this`head, this`nodes, nodes`next, nodes`previous, node`next, node`previous
      ensures Linked()
      ensures k == old(InsertIndex(ContactsOf(nodes), ContactOf(node))) && k <= old(|nodes|)
      ensures nodes == Spliced(old(nodes), k, node)
    {
      hide ContactsOf, Greater;
      node.next := null;
      node.previous := null;
      assert Linked();
      hide Chained;
      if head == null {
        LinkOnly(node);
        return 0;
      }
      var current;
      current, k := FindPlace(node);
      LinkAt(current, node, k);
    }

    method LinkAt(current: Node?, node: Node, ghost k: nat)
      requires Linked() && node !in nodes && head != null && node.next == null && node.previous == null
      requires k <= |nodes| && current == At(nodes, k)
      modifies this`head, this`nodes, nodes`next, nodes`previous, node`next, node`previous
      ensures Linked() && nodes == Spliced(old(nodes), k, node)
    {
      if current == head {
        assert k == 0;
        LinkFirst(node);
      } else if current == null {
        LinkLast(node);
      } else {
        LinkBefore(current, node, k);
      }
    }

    method AddContact(node: Node)
      requires Linked() && node !in nodes
      modifies this`head, this`nodes, nodes`next, nodes`previous, node`next, node`previous
      ensures Linked() && multiset(nodes) == multiset(old(nodes)) + multiset{node}
      ensures forall n :: n in nodes <==> n in old(nodes) || n == node
      ensures ContactsOf(nodes) == old(InsertSorted(ContactsOf(nodes), ContactOf(node)))
    {
      hide Chained, ContactsOf, InsertSorted, InsertIndex, Spliced;
      ghost var s, c, all := ContactsOf(nodes), ContactOf(node), nodes;
      InsertSortedIsSplice(s, c);
      ghost var k := Add(node);
      assert ContactsOf(all) == s && ContactOf(node) == c;
      ContactsOfSpliced(all, k, node);
      SplicedNodes(all, k, node);
    }

    /** Lead the links that run forward past a node. */
    method PassForward(node: Node, ghost k: nat)
      requires Linked() && k < |nodes| && node == nodes[k]
      modifies this`head, nodes`next
      ensures head == (if k == 0 then At(nodes, 1) else nodes[0]) && node.next == At(nodes, k + 1)
      ensures forall i {:trigger nodes[i].next} :: 0 <= i < |nodes| && i != k ==>
        nodes[i].next == At(nodes, if i + 1 == k then i + 2 else i + 1)
    {
      hide Chained;
      Links(head, nodes);
      if node.previous != null {
        node.previous.next := node.next;
      } else {
        head := node.next;
      }
    }

    /** And those that run backward. */
    method PassBackward(node: Node, ghost k: nat)
      requires k < |nodes| && node == nodes[k] && node.next == At(nodes, k + 1)
      requires forall i, j :: 0 <= i < j < |nodes| ==> nodes[i] != nodes[j]
      requires forall i {:trigger nodes[i].previous} :: 0 <= i < |nodes| ==> nodes[i].previous == At(nodes, i - 1)
      modifies nodes`previous
      ensures forall i {:trigger nodes[i].previous} :: 0 <= i < |nodes| && i != k ==>
        nodes[i].previous == At(nodes, if i - 1 == k then i - 2 else i - 1)
    {
      if node.next != null {
        node.next.previous := node.previous;
      }
    }

    /** phone_book_detach: unlink a node of this list. */
    method Detach(node: Node, ghost k: nat)
      requires Linked() && k < |nodes| && node == nodes[k]
      modifies this`head, this`nodes, nodes`next, nodes`previous
      ensures Linked() && nodes == Removed(old(nodes), k) && node !in nodes
      ensures node.next == null && node.previous == null
    {
      hide Chained, Removed;
      ghost var all := nodes;
      Links(head, all);
      PassForward(node, k);
      PassBackward(node, k);
      node.next := null;
      node.previous := null;
      nodes := Removed(nodes, k);
      ChainWithout(head, all, k);
    }

    method DetachContact(node: Node, ghost k: nat)
      requires Linked() && k < |nodes| && node == nodes[k] && k == IndexOf(ContactsOf(nodes), node.id)
      modifies this`head, this`nodes, nodes`next, nodes`previous
      ensures Linked() && node !in nodes && multiset(nodes) + multiset{node} == multiset(old(nodes))
      ensures forall n :: n in nodes ==> n in old(nodes)
      ensures ContactsOf(nodes) == old(Without(ContactsOf(nodes), node.id))
      ensures ContactOf(node) == old(ContactOf(node))
    {
      hide Chained, Without, IndexOf, ContactsOf, Removed;
      ghost var s, all := ContactsOf(nodes), nodes;
      WithoutAt(s, node.id, k);
      Detach(node, k);
      assert ContactsOf(all) == s;
      ContactsOfRemoved(all, k);
      SameNodes(all, k);
      RemovedAreOld(all, k);
    }

    method Find(id: nat) returns (found: Node?, ghost k: nat)
      requires Linked()
      ensures k == IndexOf(ContactsOf(nodes), id) && found == At(nodes, k)
      ensures found != null <==> HasId(ContactsOf(nodes), id)
    {
      ContactsOfAt(nodes);
      found := head;
      k := 0;
      while found != null
        invariant k <= |nodes| && found == At(nodes, k)
        invariant forall i :: 0 <= i < k ==> nodes[i].id != id
        decreases |nodes| - k
      {
        if found.id == id {
          break;
        }
        found := found.next;
        k := k + 1;
      }
      FirstIndex(ContactsOf(nodes), id, k);
    }

    method Create(name: Option<Text>, lastName: Option<Text>, phone: Option<Text>)
      returns (code: int, createdId: Option<nat>)
      requires Valid()
      modifies this, ids, nodes
      ensures Valid() && fresh(set n | n in nodes && n !in old(nodes))
      ensures code == Code(old(View()), Op.Create(name, lastName, phone))
      ensures View() == Apply(old(View()), Op.Create(name, lastName, phone))
      ensures createdId == if code == 0 then TakenId(old(View())) else None
    {
      hide Chained, InsertSorted, InsertIndex, Sorted, IdsExact, ContactsOf;
      if name.None? || lastName.None? || (phone.Some? && |phone.value| >= PHONESIZE) {
        return -1, None;
      }
      ghost var b := View();
      ApplyKeepsInvariant(b, Op.Create(name, lastName, phone));
      var node := new Node(0, Truncate(name.value), Truncate(lastName.value));
      var id := ids.TakeId();
      if id.None? {
        return -1, None;
      }
      node.id := id.value;
      AddContact(node);
      return 0, id;
    }

    method Remove(id: nat) returns (code: int)
      requires Valid()
      modifies this, ids, nodes
      ensures Valid() && forall n :: n in nodes ==> n in old(nodes)
      ensures code == Code(old(View()), Op.Remove(id))
      ensures View() == Apply(old(View()), Op.Remove(id))
    {
      hide Chained, Sorted, ContactsOf;
      ghost var b := View();
      ApplyKeepsInvariant(b, Op.Remove(id));
      ContactsOfAt(nodes);
      NoZeroId(b);
      var current, k := Find(id);
      if current != null {
        var released := ids.ReleaseId(id);
        assert released == 0;
        DetachContact(current, k);
        return 0;
      }
      return -1;
    }

    method EditLastName(id: nat, newName: Option<Text>) returns (code: int)
      requires Valid()
      modifies this, nodes
      ensures Valid() && multiset(nodes) == multiset(old(nodes))
      ensures code == Code(old(View()), Op.EditLastName(id, newName))
      ensures View() == Apply(old(View()), Op.EditLastName(id, newName))
    {
      hide Chained, InsertSorted, InsertIndex, Sorted, IdsExact, ContactsOf;
      ghost var b := View();
      ContactsOfAt(nodes);
      var node, k := Find(id);
      if node == null {
        return -1;
      }
      if newName.None? || |newName.value| >= NAMESIZE {
        return -1;
      }
      ApplyKeepsInvariant(b, Op.EditLastName(id, newName));
      assert node in nodes && ContactsOf(nodes)[k] == ContactOf(node);
      DetachContact(node, k);
      assert forall i :: 0 <= i < |nodes| ==> nodes[i] in old(nodes);
      node.lastName := newName.value;
      AddContact(node);
      return 0;
    }

    method Clear()
      requires Valid()
      modifies this, ids
      ensures Valid() && nodes == [] && View() == EMPTY_BOOK
    {
      ghost var k := 0;
      while head != null
        invariant 0 <= k <= |nodes| && head == At(nodes, k) && nodes == old(nodes)
        decreases |nodes| - k
      {
        head := head.next;
        k := k + 1;
      }
      nodes := [];
      ids.Clear();
    }

    method Perform(op: Op) returns (code: int)
      requires Valid()
      modifies this, ids, nodes
      ensures Valid() && fresh(set n | n in nodes && n !in old(nodes))
      ensures code == Code(old(View()), op) && View() == Apply(old(View()), op)
    {
      match op
      case Create(name, lastName, phone) =>
        var id;
        code, id := Create(name, lastName, phone);
      case Remove(id) => code := Remove(id);
      case EditLastName(id, newName) => 
        assert forall n :: n in multiset(nodes) <==> n in nodes;
        code := EditLastName(id, newName);
        assert forall n :: n in multiset(nodes) <==> n in nodes;
      case Clear =>
        Clear();
        code := 0;
    }
  }

  lemma {:induction false} FirstIndex(s: seq<Contact>, id: nat, k: nat)
    requires k <= |s| && (forall i :: 0 <= i < k ==> s[i].id != id) && (k < |s| ==> s[k].id == id)
    ensures IndexOf(s, id) == k
  {
    if k > 0 {
      FirstIndex(s[1..], id, k - 1);
    }
  }

  lemma WithoutAt(s: seq<Contact>, id: nat, k: nat)
    requires k == IndexOf(s, id)
    ensures Without(s, id) == if k < |s| then s[..k] + s[k + 1..] else s
  {
  }

  lemma SplicedNodes(nodes: seq<Node>, k: nat, node: Node)
    requires k <= |nodes|
    ensures multiset(Spliced(nodes, k, node)) == multiset(nodes) + multiset{node}
    ensures forall n :: n in Spliced(nodes, k, node) <==> n in nodes || n == node
  {
    assert nodes == nodes[..k] + nodes[k..];
  }

  lemma RemovedAreOld(nodes: seq<Node>, k: nat)
    requires k < |nodes|
    ensures forall n :: n in Removed(nodes, k) ==> n in nodes
  {
  }

  lemma NoZeroId(b: Book)
    requires IdsExact(b)
    ensures !HasId(b.contacts, 0)
  {
    ExactAccount(b);
    assert 0 !in Ids(b.contacts);
    assert forall i :: 0 <= i < |b.contacts| ==> b.contacts[i].id == Ids(b.contacts)[i];
  }

  lemma SameNodes(nodes: seq<Node>, k: nat)
    requires k < |nodes|
    ensures multiset(nodes) == multiset(Removed(nodes, k)) + multiset{nodes[k]}
  {
    assert nodes == nodes[..k] + [nodes[k]] + nodes[k + 1..];
  }
}
