/** Both phone books, driven by the same operations from empty, stay indistinguishable. */
module BookEquivalence {
  import opened BookRuns
  import opened BookSpec
  import AvlTree
  import AvlNodes
  import AvlBook
  import ListBook

  method PerformOnBoth(avl: AvlBook.PhoneBook, list: ListBook.PhoneBook, op: Op) returns (a: int, l: int)
    requires avl.Valid() && list.Valid() && avl.ids != list.ids && avl.View() == list.View()
    modifies avl, avl.ids, AvlNodes.Refs(avl.shape), list, list.ids, list.nodes
    ensures avl.Valid() && list.Valid() && avl.View() == list.View() == Apply(old(avl.View()), op)
    ensures a == l == Code(old(avl.View()), op)
    ensures fresh(AvlNodes.Refs(avl.shape) - old(AvlNodes.Refs(avl.shape)))
    ensures fresh(set n | n in list.nodes && n !in old(list.nodes))
  {
    hide *;
    AvlNodes.RefsAllocated(avl.shape);
    a := avl.Perform(op);
    assert list.Valid() && list.View() == old(list.View());
    AvlNodes.RefsAllocated(avl.shape);
    label L:
    l := list.Perform(op);
    assert avl.Valid() && avl.View() == old@L(avl.View());
  }

  /**
   From equal books, any sequence of operations returns the same codes from both and leaves the
   AVL book's in-order contacts equal to the linked list's, with the same identifiers in reserve.
   */
  method RunOnBoth(avl: AvlBook.PhoneBook, list: ListBook.PhoneBook, ops: seq<Op>)
    returns (avlCodes: seq<int>, listCodes: seq<int>)
    requires avl.Valid() && list.Valid() && avl.ids != list.ids && avl.View() == list.View()
    modifies avl, avl.ids, AvlNodes.Refs(avl.shape), list, list.ids, list.nodes
    ensures avl.Valid() && list.Valid() && avl.View() == list.View() == Run(old(avl.View()), ops)
    ensures avlCodes == listCodes == Codes(old(avl.View()), ops)
    decreases |ops|
  {
    if ops == [] {
      return [], [];
    }
    AvlNodes.RefsAllocated(avl.shape);
    var a, l := PerformOnBoth(avl, list, ops[0]);
    hide AvlBook.PhoneBook.Valid, ListBook.PhoneBook.Valid, AvlNodes.Refs, Apply, Code;
    avlCodes, listCodes := RunOnBoth(avl, list, ops[1..]);
    avlCodes, listCodes := [a] + avlCodes, [l] + listCodes;
  }

  /** The same from two freshly made books. */
  method RunFromEmpty(ops: seq<Op>)
    returns (avl: AvlBook.PhoneBook, list: ListBook.PhoneBook, avlCodes: seq<int>, listCodes: seq<int>)
    ensures avl.Valid() && list.Valid()
    ensures AvlTree.Contacts(avl.shape) == ListBook.ContactsOf(list.nodes) == Run(EMPTY_BOOK, ops).contacts
    ensures avl.View() == list.View() == Run(EMPTY_BOOK, ops) && Alphabetical(Run(EMPTY_BOOK, ops).contacts)
    ensures avlCodes == listCodes == Codes(EMPTY_BOOK, ops)
  {
    avl := new AvlBook.PhoneBook();
    list := new ListBook.PhoneBook();
    avlCodes, listCodes := RunOnBoth(avl, list, ops);
    ReachableBooks(ops);
  }
}
