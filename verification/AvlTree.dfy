/**
 The height-balanced tree on values. R is the type of node handles, so that the heap version can
 say which node sits where; the shape, the stored heights and the rebalancing steps are those of
 the linked nodes.
 */
module AvlTree {
  import opened Wrappers
  import opened BookSpec

  datatype Tree<+R> = Leaf | Fork(left: Tree<R>, node: R, contact: Contact, height: nat, right: Tree<R>)

  function Height<R>(t: Tree<R>): nat {
    if t.Leaf? then 0 else t.height
  }

  function BalanceFactor<R>(t: Tree<R>): int
    requires t.Fork?
  {
    Height(t.right) - Height(t.left)
  }

  function Max(a: nat, b: nat): nat {
    if a > b then a else b
  }

  /** A node over two subtrees, with its height recomputed from theirs. */
  function Fixed<R>(left: Tree<R>, node: R, contact: Contact, right: Tree<R>): Tree<R> {
    Fork(left, node, contact, Max(Height(left), Height(right)) + 1, right)
  }

  function RotateRight<R>(t: Tree<R>): Tree<R>
    requires t.Fork? && t.left.Fork?
  {
    Fixed(t.left.left, t.left.node, t.left.contact, Fixed(t.left.right, t.node, t.contact, t.right))
  }

  function RotateLeft<R>(t: Tree<R>): Tree<R>
    requires t.Fork? && t.right.Fork?
  {
    Fixed(Fixed(t.left, t.node, t.contact, t.right.left), t.right.node, t.right.contact, t.right.right)
  }

  function LeanRight<R>(t: Tree<R>): Tree<R>
    requires t.Fork?
  {
    if BalanceFactor(t) < 0 then RotateRight(t) else t
  }

  function LeanLeft<R>(t: Tree<R>): Tree<R>
    requires t.Fork?
  {
    if BalanceFactor(t) > 0 then RotateLeft(t) else t
  }

  function Balance<R>(left: Tree<R>, node: R, contact: Contact, right: Tree<R>): Tree<R> {
    var t := Fixed(left, node, contact, right);
    if BalanceFactor(t) == 2 then RotateLeft(Fork(left, node, contact, t.height, LeanRight(right)))
    else if BalanceFactor(t) == -2 then RotateRight(Fork(LeanLeft(left), node, contact, t.height, right))
    else t
  }

  function Insert<R>(t: Tree<R>, node: R, contact: Contact): Tree<R> {
    match t
    case Leaf => Fork(Leaf, node, contact, 1, Leaf)
    case Fork(l, n, c, _, r) =>
      if Greater(c.lastName, contact.lastName) then Balance(Insert(l, node, contact), n, c, r)
      else Balance(l, n, c, Insert(r, node, contact))
  }

  function FindMin<R>(t: Tree<R>): (R, Contact)
    requires t.Fork?
  {
    if t.left.Leaf? then (t.node, t.contact) else FindMin(t.left)
  }

  function RemoveMin<R>(t: Tree<R>): Tree<R>
    requires t.Fork?
  {
    if t.left.Leaf? then t.right else Balance(RemoveMin(t.left), t.node, t.contact, t.right)
  }

  /** Two subtrees joined after the node between them is taken out. */
  function Merge<R>(left: Tree<R>, right: Tree<R>): Tree<R> {
    if right.Leaf? then left
    else Balance(left, FindMin(right).0, FindMin(right).1, RemoveMin(right))
  }

  datatype Extraction<+R> = Extraction(rest: Tree<R>, found: Option<(R, Contact)>)

  function Extract<R>(t: Tree<R>, id: nat): Extraction<R> {
    match t
    case Leaf => Extraction(Leaf, None)
    case Fork(l, n, c, _, r) =>
      if c.id == id then Extraction(Merge(l, r), Some((n, c)))
      else
        var fromLeft := Extract(l, id);
        if fromLeft.found.Some? then Extraction(Balance(fromLeft.rest, n, c, r), fromLeft.found)
        else
          var fromRight := Extract(r, id);
          Extraction(Balance(fromLeft.rest, n, c, fromRight.rest), fromRight.found)
  }

  // ---------- what a tree holds ----------

  function Inorder<R>(t: Tree<R>): seq<(R, Contact)> {
    match t
    case Leaf => []
    case Fork(l, n, c, _, r) => Inorder(l) + [(n, c)] + Inorder(r)
  }

  function Contacts<R>(t: Tree<R>): seq<Contact> {
    match t
    case Leaf => []
    case Fork(l, _, c, _, r) => Contacts(l) + [c] + Contacts(r)
  }

  function Size<R>(t: Tree<R>): nat {
    match t
    case Leaf => 0
    case Fork(l, _, _, _, r) => Size(l) + 1 + Size(r)
  }

  /** Stored heights are exact and no subtree outgrows its sibling by more than one. */
  predicate Avl<R>(t: Tree<R>) {
    match t
    case Leaf => true
    case Fork(l, _, _, h, r) =>
      && Avl(l) && Avl(r)
      && h == Max(Height(l), Height(r)) + 1
      && -1 <= Height(r) - Height(l) <= 1
  }

  // ---------- rebalancing ----------

  lemma AvlParts<R>(t: Tree<R>)
    requires t.Fork? && Avl(t)
    ensures Avl(t.left) && Avl(t.right) && -1 <= Height(t.right) - Height(t.left) <= 1
    ensures Height(t) == Max(Height(t.left), Height(t.right)) + 1
    ensures t == Fixed(t.left, t.node, t.contact, t.right)
  {
  }

  lemma FixedIsAvl<R>(l: Tree<R>, n: R, c: Contact, r: Tree<R>)
    requires Avl(l) && Avl(r) && -1 <= Height(r) - Height(l) <= 1
    ensures Avl(Fixed(l, n, c, r)) && Height(Fixed(l, n, c, r)) == Max(Height(l), Height(r)) + 1
  {
  }

  /** What rebalancing does to a right-heavy node: one rotation, or two when the right child leans left. */
  function RightHeavyResult<R>(l: Tree<R>, n: R, c: Contact, r: Tree<R>): Tree<R>
    requires r.Fork? && (BalanceFactor(r) < 0 ==> r.left.Fork?)
  {
    if BalanceFactor(r) < 0 then
      Fixed(Fixed(l, n, c, r.left.left), r.left.node, r.left.contact,
            Fixed(r.left.right, r.node, r.contact, r.right))
    else Fixed(Fixed(l, n, c, r.left), r.node, r.contact, r.right)
  }

  function LeftHeavyResult<R>(l: Tree<R>, n: R, c: Contact, r: Tree<R>): Tree<R>
    requires l.Fork? && (BalanceFactor(l) > 0 ==> l.right.Fork?)
  {
    if BalanceFactor(l) > 0 then
      Fixed(Fixed(l.left, l.node, l.contact, l.right.left), l.right.node, l.right.contact,
            Fixed(l.right.right, n, c, r))
    else Fixed(l.left, l.node, l.contact, Fixed(l.right, n, c, r))
  }

  lemma RightHeavyIsAvl<R>(l: Tree<R>, n: R, c: Contact, r: Tree<R>)
    requires Avl(l) && Avl(r) && Height(r) == Height(l) + 2
    ensures var b := RightHeavyResult(l, n, c, r);
            Avl(b) && Height(r) <= Height(b) <= Height(r) + 1
  {
    hide Avl;
    AvlParts(r);
    if BalanceFactor(r) < 0 {
      var m := r.left;
      AvlParts(m);
      FixedIsAvl(l, n, c, m.left);
      FixedIsAvl(m.right, r.node, r.contact, r.right);
      FixedIsAvl(Fixed(l, n, c, m.left), m.node, m.contact, Fixed(m.right, r.node, r.contact, r.right));
    } else {
      FixedIsAvl(l, n, c, r.left);
      FixedIsAvl(Fixed(l, n, c, r.left), r.node, r.contact, r.right);
    }
  }

  lemma LeftHeavyIsAvl<R>(l: Tree<R>, n: R, c: Contact, r: Tree<R>)
    requires Avl(l) && Avl(r) && Height(l) == Height(r) + 2
    ensures var b := LeftHeavyResult(l, n, c, r);
            Avl(b) && Height(l) <= Height(b) <= Height(l) + 1
  {
    hide Avl;
    AvlParts(l);
    if BalanceFactor(l) > 0 {
      var m := l.right;
      AvlParts(m);
      FixedIsAvl(m.right, n, c, r);
      FixedIsAvl(l.left, l.node, l.contact, m.left);
      FixedIsAvl(Fixed(l.left, l.node, l.contact, m.left), m.node, m.contact, Fixed(m.right, n, c, r));
    } else {
      FixedIsAvl(l.right, n, c, r);
      FixedIsAvl(l.left, l.node, l.contact, Fixed(l.right, n, c, r));
    }
  }

  /**
   Subtrees at most two apart are brought back to AVL form: height grown by at most one over the
   taller subtree, and nothing moved when they were at most one apart.
   */
  lemma {:induction false} BalanceIsAvl<R>(l: Tree<R>, n: R, c: Contact, r: Tree<R>)
    requires Avl(l) && Avl(r) && -2 <= Height(r) - Height(l) <= 2
    ensures var b := Balance(l, n, c, r);
            && Avl(b)
            && Max(Height(l), Height(r)) <= Height(b) <= Max(Height(l), Height(r)) + 1
            && (-1 <= Height(r) - Height(l) <= 1 ==> b == Fixed(l, n, c, r))
  {
    if Height(r) == Height(l) + 2 {
      RightHeavyIsAvl(l, n, c, r);
    } else if Height(l) == Height(r) + 2 {
      LeftHeavyIsAvl(l, n, c, r);
    } else {
      FixedIsAvl(l, n, c, r);
    }
  }

  lemma {:induction false} BalanceInorder<R>(l: Tree<R>, n: R, c: Contact, r: Tree<R>)
    ensures Inorder(Balance(l, n, c, r)) == Inorder(l) + [(n, c)] + Inorder(r)
  {
    if Height(r) == Height(l) + 2 {
      LeanRightInorder(r);
      RotateLeftInorder(Fork(l, n, c, Fixed(l, n, c, r).height, LeanRight(r)));
    } else if Height(l) == Height(r) + 2 {
      LeanLeftInorder(l);
      RotateRightInorder(Fork(LeanLeft(l), n, c, Fixed(l, n, c, r).height, r));
    }
  }

  lemma RotateRightInorder<R>(t: Tree<R>)
    requires t.Fork? && t.left.Fork?
    ensures Inorder(RotateRight(t)) == Inorder(t)
  {
    var l := t.left;
    assert Inorder(t) == Inorder(l.left) + [(l.node, l.contact)]
                         + (Inorder(l.right) + [(t.node, t.contact)] + Inorder(t.right));
  }

  lemma RotateLeftInorder<R>(t: Tree<R>)
    requires t.Fork? && t.right.Fork?
    ensures Inorder(RotateLeft(t)) == Inorder(t)
  {
    var r := t.right;
    assert Inorder(t) == (Inorder(t.left) + [(t.node, t.contact)] + Inorder(r.left))
                         + [(r.node, r.contact)] + Inorder(r.right);
  }

  lemma LeanRightInorder<R>(t: Tree<R>)
    requires t.Fork?
    ensures LeanRight(t).Fork? && Inorder(LeanRight(t)) == Inorder(t)
  {
    if BalanceFactor(t) < 0 {
      RotateRightInorder(t);
    }
  }

  lemma LeanLeftInorder<R>(t: Tree<R>)
    requires t.Fork?
    ensures LeanLeft(t).Fork? && Inorder(LeanLeft(t)) == Inorder(t)
  {
    if BalanceFactor(t) > 0 {
      RotateLeftInorder(t);
    }
  }

  // ---------- insertion ----------

  lemma {:induction false} InsertIsAvl<R>(t: Tree<R>, node: R, contact: Contact)
    requires Avl(t)
    ensures Avl(Insert(t, node, contact))
    ensures Height(t) <= Height(Insert(t, node, contact)) <= Height(t) + 1
  {
    match t
    case Leaf =>
    case Fork(l, n, c, _, r) =>
      if Greater(c.lastName, contact.lastName) {
        InsertIsAvl(l, node, contact);
        BalanceIsAvl(Insert(l, node, contact), n, c, r);
      } else {
        InsertIsAvl(r, node, contact);
        BalanceIsAvl(l, n, c, Insert(r, node, contact));
      }
  }

  lemma {:induction false} ContactsOfInorder<R>(t: Tree<R>)
    ensures |Inorder(t)| == |Contacts(t)| == Size(t)
    ensures forall i :: 0 <= i < |Inorder(t)| ==> Inorder(t)[i].1 == Contacts(t)[i]
  {
    match t
    case Leaf =>
    case Fork(l, n, c, _, r) =>
      ContactsOfInorder(l);
      ContactsOfInorder(r);
  }

  /** Trees with the same in-order nodes hold the same contacts. */
  lemma SameContacts<R>(s: Tree<R>, t: Tree<R>)
    requires Inorder(s) == Inorder(t)
    ensures Contacts(s) == Contacts(t)
  {
    ContactsOfInorder(s);
    ContactsOfInorder(t);
    forall i | 0 <= i < |Contacts(s)|
      ensures Contacts(s)[i] == Contacts(t)[i]
    {
      assert Inorder(s)[i].1 == Contacts(s)[i];
    }
  }

  lemma BalanceContacts<R>(l: Tree<R>, n: R, c: Contact, r: Tree<R>)
    ensures Contacts(Balance(l, n, c, r)) == Contacts(l) + [c] + Contacts(r)
  {
    BalanceInorder(l, n, c, r);
    SameContacts(Balance(l, n, c, r), Fixed(l, n, c, r));
  }

  lemma SortedParts(a: seq<Contact>, c: Contact, b: seq<Contact>)
    requires Sorted(a + [c] + b)
    ensures Sorted(a) && Sorted(b)
    ensures forall i :: 0 <= i < |a| ==> !Greater(a[i].lastName, c.lastName)
    ensures forall i :: 0 <= i < |b| ==> !Greater(c.lastName, b[i].lastName)
  {
    var s := a + [c] + b;
    forall i, j | 0 <= i < j < |a|
      ensures !Greater(a[i].lastName, a[j].lastName)
    {
      assert s[i] == a[i] && s[j] == a[j];
    }
    forall i, j | 0 <= i < j < |b|
      ensures !Greater(b[i].lastName, b[j].lastName)
    {
      assert s[|a| + 1 + i] == b[i] && s[|a| + 1 + j] == b[j];
    }
    forall i | 0 <= i < |a|
      ensures !Greater(a[i].lastName, c.lastName)
    {
      assert s[i] == a[i] && s[|a|] == c;
    }
    forall i | 0 <= i < |b|
      ensures !Greater(c.lastName, b[i].lastName)
    {
      assert s[|a| + 1 + i] == b[i] && s[|a|] == c;
    }
  }

  /** Insertion keeps the contacts sorted and puts the new one at the stable place. */
  lemma {:induction false} InsertContacts<R>(t: Tree<R>, node: R, contact: Contact)
    requires Sorted(Contacts(t))
    ensures Contacts(Insert(t, node, contact)) == InsertSorted(Contacts(t), contact)
  {
    match t
    case Leaf =>
    case Fork(l, n, c, _, r) =>
      SortedParts(Contacts(l), c, Contacts(r));
      if Greater(c.lastName, contact.lastName) {
        InsertContacts(l, node, contact);
        BalanceContacts(Insert(l, node, contact), n, c, r);
        InsertLeftPart(Contacts(l), c, Contacts(r), contact);
      } else {
        InsertContacts(r, node, contact);
        BalanceContacts(l, n, c, Insert(r, node, contact));
        InsertRightPart(Contacts(l), c, Contacts(r), contact);
      }
  }

  function Spliced<T>(s: seq<T>, i: nat, x: T): seq<T>
    requires i <= |s|
  {
    s[..i] + [x] + s[i..]
  }

  /** Insertion splices the new node, and only it, into the in-order sequence of nodes. */
  lemma InorderParts<R>(t: Tree<R>)
    requires t.Fork?
    ensures Inorder(t) == Inorder(t.left) + [(t.node, t.contact)] + Inorder(t.right)
  {
  }

  lemma SameLength<R>(t: Tree<R>)
    ensures |Inorder(t)| == |Contacts(t)|
  {
    ContactsOfInorder(t);
  }

  lemma InsertIntoLeaf<R>(t: Tree<R>, node: R, contact: Contact)
    requires t.Leaf?
    ensures Inorder(Insert(t, node, contact)) == Spliced(Inorder(t), InsertIndex(Contacts(t), contact), (node, contact))
  {
  }

  lemma InsertStep<R>(t: Tree<R>, node: R, contact: Contact)
    requires t.Fork?
    ensures Insert(t, node, contact) ==
            if Greater(t.contact.lastName, contact.lastName)
            then Balance(Insert(t.left, node, contact), t.node, t.contact, t.right)
            else Balance(t.left, t.node, t.contact, Insert(t.right, node, contact))
    ensures Contacts(t) == Contacts(t.left) + [t.contact] + Contacts(t.right)
  {
    hide Balance, Greater;
  }

  lemma {:induction false} InsertInorder<R>(t: Tree<R>, node: R, contact: Contact)
    requires Sorted(Contacts(t))
    ensures |Inorder(t)| == |Contacts(t)|
    ensures Inorder(Insert(t, node, contact)) ==
            Spliced(Inorder(t), InsertIndex(Contacts(t), contact), (node, contact))
  {
    hide Insert, Balance, Inorder, Contacts, InsertIndex, Greater, Sorted, Spliced, Size;
    SameLength(t);
    if t.Leaf? {
      InsertIntoLeaf(t, node, contact);
    } else {
      var l, n, c, r := t.left, t.node, t.contact, t.right;
      InsertStep(t, node, contact);
      InorderParts(t);
      SortedParts(Contacts(l), c, Contacts(r));
      if Greater(c.lastName, contact.lastName) {
        InsertInorder(l, node, contact);
        BalanceInorder(Insert(l, node, contact), n, c, r);
        InsertLeftPart(Contacts(l), c, Contacts(r), contact);
        SplicedLeft(Inorder(l), (n, c), Inorder(r), InsertIndex(Contacts(l), contact), (node, contact));
      } else {
        InsertInorder(r, node, contact);
        BalanceInorder(l, n, c, Insert(r, node, contact));
        InsertRightPart(Contacts(l), c, Contacts(r), contact);
        SameLength(l);
        SplicedRight(Inorder(l), (n, c), Inorder(r), InsertIndex(Contacts(r), contact), (node, contact));
      }
    }
  }

  lemma SplicedLeft<T>(a: seq<T>, m: T, b: seq<T>, i: nat, x: T)
    requires i <= |a|
    ensures Spliced(a + [m] + b, i, x) == Spliced(a, i, x) + [m] + b
  {
  }

  lemma SplicedRight<T>(a: seq<T>, m: T, b: seq<T>, i: nat, x: T)
    requires i <= |b|
    ensures Spliced(a + [m] + b, |a| + 1 + i, x) == a + [m] + Spliced(b, i, x)
  {
    assert (a + [m] + b)[..|a| + 1 + i] == a + [m] + b[..i];
  }

  function Removed<T>(s: seq<T>, i: nat): seq<T>
    requires i < |s|
  {
    s[..i] + s[i + 1..]
  }

  lemma RemovedLeft<T>(a: seq<T>, m: T, b: seq<T>, i: nat)
    requires i < |a|
    ensures Removed(a + [m] + b, i) == Removed(a, i) + [m] + b
  {
  }

  lemma RemovedRight<T>(a: seq<T>, m: T, b: seq<T>, i: nat)
    requires i < |b|
    ensures Removed(a + [m] + b, |a| + 1 + i) == a + [m] + Removed(b, i)
  {
    assert (a + [m] + b)[..|a| + 1 + i] == a + [m] + b[..i];
  }

  lemma InsertLeftPart(a: seq<Contact>, c: Contact, b: seq<Contact>, contact: Contact)
    requires Greater(c.lastName, contact.lastName)
    ensures InsertSorted(a + [c] + b, contact) == InsertSorted(a, contact) + [c] + b
    ensures InsertIndex(a + [c] + b, contact) == InsertIndex(a, contact)
  {
    InsertSortedIsSplice(a, contact);
    var i := InsertIndex(a, contact);
    var s := a + [c] + b;
    assert s[..i] == a[..i] && s[i..] == a[i..] + [c] + b;
    SpliceIsInsertSorted(s, contact, i);
  }

  lemma InsertRightPart(a: seq<Contact>, c: Contact, b: seq<Contact>, contact: Contact)
    requires !Greater(c.lastName, contact.lastName)
    requires forall i :: 0 <= i < |a| ==> !Greater(a[i].lastName, c.lastName)
    ensures InsertSorted(a + [c] + b, contact) == a + [c] + InsertSorted(b, contact)
    ensures InsertIndex(a + [c] + b, contact) == |a| + 1 + InsertIndex(b, contact)
  {
    InsertSortedIsSplice(b, contact);
    var i := InsertIndex(b, contact);
    var s, k := a + [c] + b, |a| + 1 + i;
    hide InsertSorted, InsertIndex, Greater;
    assert s[..k] == a + [c] + b[..i] && s[k..] == b[i..];
    forall j | 0 <= j < |a|
      ensures !Greater(a[j].lastName, contact.lastName)
    {
      GreaterIsStrictOrder(a[j].lastName, c.lastName, contact.lastName);
    }
    SpliceIsInsertSorted(s, contact, k);
  }

  // ---------- extraction ----------

  lemma {:induction false} RemoveMinIsAvl<R>(t: Tree<R>)
    requires t.Fork? && Avl(t)
    ensures Avl(RemoveMin(t)) && Height(t) - 1 <= Height(RemoveMin(t)) <= Height(t)
  {
    if t.left.Fork? {
      RemoveMinIsAvl(t.left);
      BalanceIsAvl(RemoveMin(t.left), t.node, t.contact, t.right);
    }
  }

  lemma {:induction false} RemoveMinInorder<R>(t: Tree<R>)
    requires t.Fork?
    ensures Inorder(t) == [FindMin(t)] + Inorder(RemoveMin(t))
  {
    if t.left.Fork? {
      RemoveMinInorder(t.left);
      BalanceInorder(RemoveMin(t.left), t.node, t.contact, t.right);
    }
  }

  lemma MergeIsAvl<R>(l: Tree<R>, r: Tree<R>)
    requires Avl(l) && Avl(r) && -1 <= Height(r) - Height(l) <= 1
    ensures Avl(Merge(l, r))
    ensures Max(Height(l), Height(r)) <= Height(Merge(l, r)) <= Max(Height(l), Height(r)) + 1
  {
    if r.Fork? {
      RemoveMinIsAvl(r);
      BalanceIsAvl(l, FindMin(r).0, FindMin(r).1, RemoveMin(r));
    }
  }

  lemma MergeInorder<R>(l: Tree<R>, r: Tree<R>)
    ensures Inorder(Merge(l, r)) == Inorder(l) + Inorder(r)
  {
    if r.Fork? {
      RemoveMinInorder(r);
      BalanceInorder(l, FindMin(r).0, FindMin(r).1, RemoveMin(r));
      hide Inorder, Balance, RemoveMin, FindMin;
      assert Inorder(l) + [FindMin(r)] + Inorder(RemoveMin(r)) == Inorder(l) + Inorder(r);
    }
  }

  /** Where a node with an identifier sits in the order the code searches: node, left, right. */
  predicate Holds<R>(t: Tree<R>, id: nat) {
    t.Fork? && (t.contact.id == id || Holds(t.left, id) || Holds(t.right, id))
  }

  /** One step of the search: the node itself, then its left subtree, then its right one. */
  lemma ExtractStep<R>(t: Tree<R>, id: nat)
    requires t.Fork?
    ensures var el, er := Extract(t.left, id), Extract(t.right, id);
            Extract(t, id) ==
            if t.contact.id == id then Extraction(Merge(t.left, t.right), Some((t.node, t.contact)))
            else if el.found.Some? then Extraction(Balance(el.rest, t.node, t.contact, t.right), el.found)
            else Extraction(Balance(el.rest, t.node, t.contact, er.rest), er.found)
  {
    hide Merge, Balance;
  }

  lemma ExtractNothing<R>(t: Tree<R>, id: nat)
    requires t.Leaf?
    ensures Extract(t, id) == Extraction(Leaf, None) && Avl(t)
  {
  }

  lemma {:induction false} ExtractIsAvl<R>(t: Tree<R>, id: nat)
    requires Avl(t)
    ensures var e := Extract(t, id);
            && Avl(e.rest) && Height(t) - 1 <= Height(e.rest) <= Height(t)
            && (e.found.Some? <==> Holds(t, id))
            && (e.found.None? ==> e.rest == t)
  {
    hide Avl, Merge, Balance, Extract;
    if t.Fork? {
      var l, n, c, r := t.left, t.node, t.contact, t.right;
      AvlParts(t);
      ExtractStep(t, id);
      if c.id == id {
        MergeIsAvl(l, r);
      } else {
        ExtractIsAvl(l, id);
        ExtractIsAvl(r, id);
        if Extract(l, id).found.Some? {
          BalanceIsAvl(Extract(l, id).rest, n, c, r);
        } else {
          BalanceIsAvl(l, n, c, Extract(r, id).rest);
        }
      }
    } else {
      ExtractNothing(t, id);
    }
  }

  /** Extraction takes exactly the found node out of the in-order sequence. */
  lemma {:induction false} ExtractInorder<R>(t: Tree<R>, id: nat) returns (i: nat)
    requires Avl(t) && Holds(t, id)
    ensures var e := Extract(t, id);
            && e.found.Some? && e.found.value.1.id == id
            && i < |Inorder(t)| && Inorder(t)[i] == e.found.value
            && Inorder(e.rest) == Removed(Inorder(t), i)
  {
    hide Extract, Inorder, Avl, Balance, Merge, Removed;
    var l, n, c, r := t.left, t.node, t.contact, t.right;
    AvlParts(t);
    InorderParts(t);
    ExtractStep(t, id);
    ExtractIsAvl(l, id);
    ExtractIsAvl(r, id);
    var el, er := Extract(l, id), Extract(r, id);
    if c.id == id {
      MergeInorder(l, r);
      i := |Inorder(l)|;
      RemovedMiddle(Inorder(l), (n, c), Inorder(r));
    } else if Holds(l, id) {
      i := ExtractInorder(l, id);
      BalanceInorder(el.rest, n, c, r);
      RemovedLeft(Inorder(l), (n, c), Inorder(r), i);
    } else {
      var j := ExtractInorder(r, id);
      BalanceInorder(l, n, c, er.rest);
      RemovedRight(Inorder(l), (n, c), Inorder(r), j);
      i := |Inorder(l)| + 1 + j;
    }
  }

  lemma RemovedMiddle<T>(a: seq<T>, m: T, b: seq<T>)
    ensures Removed(a + [m] + b, |a|) == a + b
  {
  }

  // ---------- how high a tree can be ----------

  function Fib(n: nat): nat {
    if n < 2 then n else Fib(n - 2) + Fib(n - 1)
  }

  /** A tree of height h holds at least Fib(h + 2) - 1 contacts. */
  lemma {:induction false} SizeAtLeastFib<R>(t: Tree<R>)
    requires Avl(t)
    ensures Size(t) + 1 >= Fib(Height(t) + 2)
  {
    match t
    case Leaf =>
    case Fork(l, _, _, h, r) =>
      SizeAtLeastFib(l);
      SizeAtLeastFib(r);
      FibGrows(Height(l) + 2, h + 1);
      FibGrows(Height(r) + 2, h + 1);
      FibGrows(h, Height(l) + 2);
      FibGrows(h, Height(r) + 2);
      assert Fib(h + 2) == Fib(h) + Fib(h + 1);
      assert h + 1 == Height(l) + 2 || h + 1 == Height(r) + 2;
  }

  lemma {:induction false} FibGrows(m: nat, n: nat)
    ensures m <= n ==> Fib(m) <= Fib(n)
    decreases n
  {
    if m < n {
      FibGrows(m, n - 1);
      assert n >= 2 ==> Fib(n) == Fib(n - 2) + Fib(n - 1);
    }
  }

  /** With at most 2^32 - 1 contacts the height is at most 45, so a one-byte height never overflows. */
  lemma HeightFitsByte<R>(t: Tree<R>)
    requires Avl(t)
    ensures Size(t) < UINT_RANGE ==> Height(t) <= 45
    ensures Size(t) <= 1_000_000_000 ==> Height(t) <= 42
  {
    SizeAtLeastFib(t);
    FibValues();
    FibGrows(48, Height(t) + 2);
    FibGrows(45, Height(t) + 2);
  }

  lemma FibValues()
    ensures Fib(45) == 1134903170 && Fib(47) == 2971215073 && Fib(48) == 4807526976
  {
    assert Fib(10) == 55 && Fib(11) == 89;
    assert Fib(20) == 6765 && Fib(21) == 10946;
    assert Fib(30) == 832040 && Fib(31) == 1346269;
    assert Fib(40) == 102334155 && Fib(41) == 165580141;
  }

  /** The sparsest tree of each height, every left subtree one higher than the right one. */
  function Sparsest(h: nat, c: Contact): Tree<()> {
    if h == 0 then Leaf
    else if h == 1 then Fork(Leaf, (), c, 1, Leaf)
    else Fork(Sparsest(h - 1, c), (), c, h, Sparsest(h - 2, c))
  }

  /** The size bound is attained at every height. */
  lemma {:induction false} SparsestAttainsFib(h: nat, c: Contact)
    ensures Avl(Sparsest(h, c)) && Height(Sparsest(h, c)) == h
    ensures Size(Sparsest(h, c)) + 1 == Fib(h + 2)
  {
    if h >= 2 {
      SparsestAttainsFib(h - 1, c);
      SparsestAttainsFib(h - 2, c);
    }
  }
}
