/** The AVL phone book: every operation does to its nodes what BookSpec does to the sorted sequence. */
module AvlBook {
  import opened Bytes
  import opened Wrappers
  import opened BookSpec
  import opened BookRuns
  import opened AvlTree
  import opened AvlNodes
  import opened IdManager

  // ---------- from tree lemmas to sequence operations ----------

  lemma HasIdConcat(a: seq<Contact>, c: Contact, b: seq<Contact>, id: nat)
    ensures HasId(a + [c] + b, id) <==> HasId(a, id) || c.id == id || HasId(b, id)
  {
    var s := a + [c] + b;
    var i, j, k := IndexOf(s, id), IndexOf(a, id), IndexOf(b, id);
    assert s[|a|] == c;
    if j < |a| {
      assert s[j].id == id;
    }
    if k < |b| {
      assert s[|a| + 1 + k].id == id;
    }
    if i < |s| {
      assert i < |a| ==> a[i].id == id;
      assert i > |a| ==> b[i - |a| - 1].id == id;
    }
  }

  lemma {:induction false} HoldsIsHasId<R>(t: Tree<R>, id: nat)
    ensures Holds(t, id) <==> HasId(Contacts(t), id)
  {
    match t
    case Leaf =>
    case Fork(l, _, c, _, r) =>
      HoldsIsHasId(l, id);
      HoldsIsHasId(r, id);
      HasIdConcat(Contacts(l), c, Contacts(r), id);
  }

  /** With distinct identifiers, taking out any contact with an identifier is taking out that contact. */
  lemma RemovedIsWithout(b: Book, i: nat, id: nat)
    requires IdsExact(b) && i < |b.contacts| && b.contacts[i].id == id
    ensures HasId(b.contacts, id) && IndexOf(b.contacts, id) == i
    ensures Removed(b.contacts, i) == Without(b.contacts, id)
  {
    ExactAccount(b);
    var j := IndexOf(b.contacts, id);
    assert Ids(b.contacts)[i] == id;
    assert Ids(b.contacts)[j] == id;
  }

  lemma WithoutMissing(s: seq<Contact>, id: nat)
    requires !HasId(s, id)
    ensures Without(s, id) == s
  {
  }

  /** Extracting an identifier from a valid book's tree removes that contact from its sequence. */
  lemma ExtractContacts<R>(t: Tree<R>, b: Book, id: nat)
    requires Avl(t) && b.contacts == Contacts(t) && IdsExact(b) && Holds(t, id)
    ensures HasId(b.contacts, id)
    ensures var e := Extract(t, id);
            && e.found.Some? && e.found.value.1 == b.contacts[IndexOf(b.contacts, id)]
            && Contacts(e.rest) == Without(b.contacts, id)
  {
    hide Extract, Inorder, Contacts, Avl, Holds, IdsExact, Without, HasId, IndexOf;
    var e := Extract(t, id);
    var i := ExtractInorder(t, id);
    ContactsOfInorder(t);
    ContactsOfInorder(e.rest);
    forall k | 0 <= k < |Contacts(e.rest)|
      ensures Contacts(e.rest)[k] == Removed(b.contacts, i)[k]
    {
      assert Inorder(e.rest)[k].1 == Contacts(e.rest)[k];
      assert Inorder(e.rest)[k] == Inorder(t)[if k < i then k else k + 1];
    }
    assert Contacts(e.rest) == Removed(b.contacts, i);
    RemovedIsWithout(b, i, id);
  }

  /** A valid book's tree is low: it has fewer nodes than there are identifiers. */
  lemma BookTreeIsLow<R>(t: Tree<R>, b: Book)
    requires Avl(t) && b.contacts == Contacts(t) && IdsExact(b)
    ensures Height(t) <= 45
  {
    AccountSize(b);
    ContactsOfInorder(t);
    HeightFitsByte(t);
  }

  class PhoneBook {
    var root: Node?
    const ids: IdManager
    ghost var shape: Shape

    ghost function View(): Book
      reads this, ids
    {
      Book(Contacts(shape), ids.nextId, ids.freeIds)
    }

    /** The nodes form the AVL tree the ghost shape describes. */
    ghost predicate Linked()
      reads this, Refs(shape)
    {
      Rep(root, shape) && NoShare(shape) && Avl(shape)
    }

    ghost predicate Valid()
      reads this, ids, Refs(shape)
    {
      Linked() && BookInvariant(View())
    }

    constructor ()
      ensures Valid() && fresh(ids) && Refs(shape) == {} && View() == EMPTY_BOOK
    {
      root := null;
      ids := new IdManager();
      shape := Leaf;
    }

    /** Insert a node that belongs to no tree, already filled in. */
    method Add(node: Node, ghost c: Contact)
      requires Linked() && Height(shape) <= 45 && Sorted(Contacts(shape))
      requires node !in Refs(shape) && Carries(node, c) && node.left == null && node.right == null && node.height == 1
      modifies this, Refs(shape), node
      ensures Linked() && Contacts(shape) == InsertSorted(old(Contacts(shape)), c)
      ensures Refs(shape) == old(Refs(shape)) + {node}
    {
      InsertIsAvl(shape, node, c);
      InsertContacts(shape, node, c);
      root := AddNode(root, node, shape, c);
      shape := Insert(shape, node, c);
    }

    /** Take the node with an identifier out of the tree, if there is one. */
    method TakeOut(id: nat, ghost b: Book) returns (removed: Node?)
      requires Linked() && b.contacts == Contacts(shape) && IdsExact(b)
      modifies this, Refs(shape)
      ensures Linked() && Contacts(shape) == Without(b.contacts, id) && Height(shape) <= 45
      ensures removed != null <==> HasId(b.contacts, id)
      ensures Refs(shape) == if removed == null then old(Refs(shape)) else old(Refs(shape)) - {removed}
      ensures removed != null ==>
                && removed in old(Refs(shape)) && removed.left == null && removed.right == null && removed.height == 1
                && Carries(removed, b.contacts[IndexOf(b.contacts, id)])
    {
      hide IdsExact, Without, Contacts, Extract, Holds, IndexOf;
      HoldsIsHasId(shape, id);
      BookTreeIsLow(shape, b);
      ExtractIsAvl(shape, id);
      if Holds(shape, id) {
        ExtractContacts(shape, b, id);
      } else {
        WithoutMissing(b.contacts, id);
      }
      ghost var rest := Extract(shape, id).rest;
      root, removed := ExtractNode(root, id, shape);
      shape := rest;
    }

    /** Is there a contact with this identifier? */
    method Find(id: nat) returns (found: Node?)
      requires Linked()
      ensures found != null <==> HasId(Contacts(shape), id)
      ensures found != null ==> found in Refs(shape) && found.id == id
    {
      HoldsIsHasId(shape, id);
      found := FindNode(root, id, shape);
    }

    method Create(name: Option<Text>, lastName: Option<Text>, phone: Option<Text>) returns (code: int)
      requires Valid()
      modifies this, ids, Refs(shape)
      ensures Valid() && fresh(Refs(shape) - old(Refs(shape))) && old(Refs(shape)) <= Refs(shape)
      ensures code == Code(old(View()), Op.Create(name, lastName, phone))
      ensures View() == Apply(old(View()), Op.Create(name, lastName, phone))
    {
      hide Rep, NoShare, Avl, InsertSorted, Sorted, IdsExact, Contacts, Refs;
      if name.None? || lastName.None? || (phone.Some? && |phone.value| >= PHONESIZE) {
        return -1;
      }
      ghost var b := View();
      ApplyKeepsInvariant(b, Op.Create(name, lastName, phone));
      BookTreeIsLow(shape, b);
      RefsAllocated(shape);
      var node := new Node(0, Truncate(name.value), Truncate(lastName.value));
      var id := ids.TakeId();
      if id.None? {
        return -1;
      }
      node.id := id.value;
      Add(node, Contact(id.value, Truncate(name.value), Truncate(lastName.value)));
      return 0;
    }

    method Remove(id: nat) returns (code: int)
      requires Valid()
      modifies this, ids, Refs(shape)
      ensures Valid() && Refs(shape) <= old(Refs(shape))
      ensures code == Code(old(View()), Op.Remove(id))
      ensures View() == Apply(old(View()), Op.Remove(id))
    {
      hide Rep, NoShare, Avl, Without, Sorted, IdsExact, Contacts, Refs;
      if id == 0 {
        return -1;
      }
      ghost var b := View();
      ApplyKeepsInvariant(b, Op.Remove(id));
      RefsAllocated(shape);
      var found := Find(id);
      if found == null {
        return -1;
      }
      var released := ids.ReleaseId(id);
      var removed := TakeOut(id, b);
      return 0;
    }

    /** The same node is taken out, renamed and put back: no node is created or lost. */
    method EditLastName(id: nat, newName: Option<Text>) returns (code: int)
      requires Valid()
      modifies this, Refs(shape)
      ensures Valid() && Refs(shape) == old(Refs(shape))
      ensures code == Code(old(View()), Op.EditLastName(id, newName))
      ensures View() == Apply(old(View()), Op.EditLastName(id, newName))
    {
      hide Rep, NoShare, Avl, Without, InsertSorted, Sorted, IdsExact, Contacts, Refs;
      if newName.None? || |newName.value| >= NAMESIZE {
        return -1;
      }
      ghost var b := View();
      RefsAllocated(shape);
      var node := Find(id);
      if node == null {
        return -1;
      }
      ApplyKeepsInvariant(b, Op.EditLastName(id, newName));
      WithoutKeepsSorted(b.contacts, id);
      var extracted := TakeOut(id, b);
      RefsAllocated(shape);
      extracted.lastName := newName.value;
      extracted.left := null;
      extracted.right := null;
      extracted.height := 1;
      Add(extracted, Renamed(b, id, newName.value));
      return 0;
    }

    method Clear()
      requires Valid()
      modifies this, ids
      ensures Valid() && Refs(shape) == {} && View() == EMPTY_BOOK
    {
      root := null;
      shape := Leaf;
      ids.Clear();
    }

    method Perform(op: Op) returns (code: int)
      requires Valid()
      modifies this, ids, Refs(shape)
      ensures Valid() && fresh(Refs(shape) - old(Refs(shape)))
      ensures code == Code(old(View()), op) && View() == Apply(old(View()), op)
    {
      match op
      case Create(name, lastName, phone) => code := Create(name, lastName, phone);
      case Remove(id) => code := Remove(id);
      case EditLastName(id, newName) => code := EditLastName(id, newName);
      case Clear =>
        Clear();
        code := 0;
    }
  }
}
