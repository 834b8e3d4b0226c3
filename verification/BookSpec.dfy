/**
 What both phone books implement: a sequence of contacts sorted by last name, equal names in the
 order they were added, together with the identifiers handed out and given back.
 */
module BookSpec {
  import opened Bytes
  import opened Wrappers

  const NAMESIZE := 100
  const PHONESIZE := 12
  const UINT_RANGE := 0x1_0000_0000

  datatype Contact = Contact(id: nat, name: Text, lastName: Text)

  /** `strcmp(a, b) > 0` on unsigned bytes. */
  predicate Greater(a: Text, b: Text) {
    a != [] && (b == [] || a[0] > b[0] || (a[0] == b[0] && Greater(a[1..], b[1..])))
  }

  /** Up to k the texts agree; there a goes on with a greater byte, or b ends. */
  predicate PartAt(a: Text, b: Text, k: nat) {
    k < |a| && k <= |b| && a[..k] == b[..k] && (k == |b| || a[k] > b[k])
  }

  /** Alphabetical order. */
  ghost predicate ComesAfter(a: Text, b: Text) {
    exists k: nat :: PartAt(a, b, k)
  }

  lemma PartLater(a: Text, b: Text, k: nat)
    requires a != [] && b != [] && a[0] == b[0]
    ensures PartAt(a, b, k + 1) <==> PartAt(a[1..], b[1..], k)
  {
    if k < |a| - 1 && k <= |b| - 1 {
      assert a[..k + 1] == [a[0]] + a[1..][..k] && b[..k + 1] == [b[0]] + b[1..][..k];
      if a[..k + 1] == b[..k + 1] {
        assert a[..k + 1][1..] == a[1..][..k] && b[..k + 1][1..] == b[1..][..k];
      }
    }
  }

  lemma PartAtOnce(a: Text, b: Text, k: nat)
    requires a == [] || b == [] || a[0] != b[0]
    ensures PartAt(a, b, k) <==> k == 0 && a != [] && (b == [] || a[0] > b[0])
  {
    if 0 < k < |a| && k <= |b| {
      assert a[..k][0] == a[0] && b[..k][0] == b[0];
    } else if k == 0 {
      assert a[..0] == b[..0];
    }
  }

  lemma {:induction false} GreaterIffComesAfter(a: Text, b: Text)
    ensures Greater(a, b) <==> ComesAfter(a, b)
  {
    hide PartAt;
    if a == [] || b == [] || a[0] != b[0] {
      forall k: nat ensures PartAt(a, b, k) <==> k == 0 && a != [] && (b == [] || a[0] > b[0]) {
        PartAtOnce(a, b, k);
      }
      if Greater(a, b) {
        assert PartAt(a, b, 0);
      }
    } else {
      GreaterIffComesAfter(a[1..], b[1..]);
      NotAtOnce(a, b);
      if ComesAfter(a, b) {
        var k: nat :| PartAt(a, b, k);
        PartLater(a, b, k - 1);
        assert k > 0 && PartAt(a[1..], b[1..], k - 1);
      }
      if ComesAfter(a[1..], b[1..]) {
        var k: nat :| PartAt(a[1..], b[1..], k);
        PartLater(a, b, k);
        assert PartAt(a, b, k + 1);
      }
    }
  }

  lemma NotAtOnce(a: Text, b: Text)
    requires a != [] && b != [] && a[0] == b[0]
    ensures !PartAt(a, b, 0)
  {
  }

  lemma {:induction false} GreaterIsStrictOrder(a: Text, b: Text, c: Text)
    ensures !(Greater(a, b) && Greater(b, a))
    ensures !Greater(a, b) && !Greater(b, c) ==> !Greater(a, c)
    ensures !Greater(a, b) && !Greater(b, a) ==> a == b
    decreases |a| + |b| + |c|
  {
    if a != [] && b != [] && a[0] == b[0] {
      GreaterIsStrictOrder(a[1..], b[1..], if c != [] then c[1..] else []);
      assert a == [a[0]] + a[1..] && b == [b[0]] + b[1..];
    }
  }

  function Truncate(s: Text): Text {
    if |s| < NAMESIZE then s else s[..NAMESIZE - 1]
  }

  // ---------- the sorted sequence ----------

  ghost predicate Sorted(s: seq<Contact>) {
    forall i, j :: 0 <= i < j < |s| ==> !Greater(s[i].lastName, s[j].lastName)
  }

  /** No last name comes before an earlier one. */
  ghost predicate Alphabetical(s: seq<Contact>) {
    forall i, j :: 0 <= i < j < |s| ==> !ComesAfter(s[i].lastName, s[j].lastName)
  }

  lemma SortedIsAlphabetical(s: seq<Contact>)
    ensures Sorted(s) <==> Alphabetical(s)
  {
    hide Greater, ComesAfter;
    forall i, j | 0 <= i < j < |s|
      ensures Greater(s[i].lastName, s[j].lastName) <==> ComesAfter(s[i].lastName, s[j].lastName)
    {
      GreaterIffComesAfter(s[i].lastName, s[j].lastName);
    }
  }

  /** Insertion before the first contact with a greater last name. */
  function InsertSorted(s: seq<Contact>, c: Contact): seq<Contact> {
    if s == [] then [c]
    else if Greater(s[0].lastName, c.lastName) then [c] + s
    else [s[0]] + InsertSorted(s[1..], c)
  }

  function IndexOf(s: seq<Contact>, id: nat): (i: nat)
    ensures i <= |s|
    ensures i < |s| ==> s[i].id == id
    ensures forall k :: 0 <= k < i ==> s[k].id != id
  {
    if s == [] || s[0].id == id then 0 else 1 + IndexOf(s[1..], id)
  }

  predicate HasId(s: seq<Contact>, id: nat) {
    IndexOf(s, id) < |s|
  }

  function Without(s: seq<Contact>, id: nat): seq<Contact> {
    var i := IndexOf(s, id);
    if i < |s| then s[..i] + s[i + 1..] else s
  }

  function Ids(s: seq<Contact>): seq<nat> {
    seq(|s|, i requires 0 <= i < |s| => s[i].id)
  }

  /** Where insertion puts the new contact. */
  function InsertIndex(s: seq<Contact>, c: Contact): (i: nat)
    ensures i <= |s|
  {
    if s == [] || Greater(s[0].lastName, c.lastName) then 0 else 1 + InsertIndex(s[1..], c)
  }

  /** Insertion cuts the sequence in two: nothing greater before the cut, a greater name right after it. */
  lemma {:induction false} InsertSortedIsSplice(s: seq<Contact>, c: Contact)
    ensures var i := InsertIndex(s, c);
            && InsertSorted(s, c) == s[..i] + [c] + s[i..]
            && (forall k :: 0 <= k < i ==> !Greater(s[k].lastName, c.lastName))
            && (i < |s| ==> Greater(s[i].lastName, c.lastName))
  {
    if s != [] && !Greater(s[0].lastName, c.lastName) {
      InsertSortedIsSplice(s[1..], c);
      var i := InsertIndex(s[1..], c);
      assert s[..i + 1] == [s[0]] + s[1..][..i];
      assert s[i + 1..] == s[1..][i..];
    }
  }

  /** A cut with those two properties of a sorted sequence is the cut insertion makes. */
  lemma {:induction false} SpliceIsInsertSorted(s: seq<Contact>, c: Contact, i: nat)
    requires i <= |s| && (forall k :: 0 <= k < i ==> !Greater(s[k].lastName, c.lastName))
    requires i < |s| ==> Greater(s[i].lastName, c.lastName)
    ensures InsertSorted(s, c) == s[..i] + [c] + s[i..] && InsertIndex(s, c) == i
  {
    if i > 0 {
      SpliceIsInsertSorted(s[1..], c, i - 1);
      assert s[..i] == [s[0]] + s[1..][..i - 1];
      assert s[i..] == s[1..][i - 1..];
    }
  }

  /** The place: nobody before it comes after the last name, and the next one does. */
  ghost predicate Belongs(s: seq<Contact>, i: nat, lastName: Text) {
    && i <= |s| && (forall k :: 0 <= k < i ==> !ComesAfter(s[k].lastName, lastName))
    && (i < |s| ==> ComesAfter(s[i].lastName, lastName))
  }

  /** In alphabetical terms: the new contact goes behind all that do not come after it. */
  lemma {:induction false} InsertedAlphabetically(s: seq<Contact>, c: Contact) returns (i: nat)
    ensures i <= |s| && Belongs(s, i, c.lastName) && InsertSorted(s, c) == s[..i] + [c] + s[i..]
  {
    hide Greater, ComesAfter, InsertSorted;
    InsertSortedIsSplice(s, c);
    i := InsertIndex(s, c);
    forall k | 0 <= k < |s| ensures Greater(s[k].lastName, c.lastName) <==> ComesAfter(s[k].lastName, c.lastName) {
      GreaterIffComesAfter(s[k].lastName, c.lastName);
    }
  }

  lemma InsertKeepsAlphabetical(s: seq<Contact>, c: Contact)
    requires Alphabetical(s)
    ensures Alphabetical(InsertSorted(s, c))
  {
    hide Sorted, Alphabetical, InsertSorted;
    SortedIsAlphabetical(s);
    InsertKeepsSorted(s, c);
    SortedIsAlphabetical(InsertSorted(s, c));
  }

  lemma InsertKeepsSorted(s: seq<Contact>, c: Contact)
    requires Sorted(s)
    ensures Sorted(InsertSorted(s, c))
  {
    InsertSortedIsSplice(s, c);
    var i := InsertIndex(s, c);
    var t := InsertSorted(s, c);
    forall p, q | 0 <= p < q < |t|
      ensures !Greater(t[p].lastName, t[q].lastName)
    {
      if p == i {
        GreaterIsStrictOrder(c.lastName, s[i].lastName, s[q - 1].lastName);
        if i < q - 1 {
          GreaterIsStrictOrder(s[i].lastName, s[q - 1].lastName, c.lastName);
        }
      }
    }
  }

  // ---------- the book and its operations ----------

  /** freeIds is a stack whose top is its first element; nextId is an unsigned int that wraps to 0. */
  datatype Book = Book(contacts: seq<Contact>, nextId: nat, freeIds: seq<nat>)

  const EMPTY_BOOK := Book([], 1, [])

  datatype Op =
    | Create(name: Option<Text>, lastName: Option<Text>, phone: Option<Text>)
    | Remove(id: nat)
    | EditLastName(editId: nat, newName: Option<Text>)
    | Clear

  /** The identifier the next contact gets, if any is left. */
  function TakenId(b: Book): Option<nat> {
    if b.freeIds != [] then Some(b.freeIds[0])
    else if b.nextId == 0 then None
    else Some(b.nextId)
  }

  function AfterTake(b: Book): Book
    requires TakenId(b).Some?
  {
    if b.freeIds != [] then b.(freeIds := b.freeIds[1..])
    else b.(nextId := (b.nextId + 1) % UINT_RANGE)
  }

  /** A phone number may be missing; one that is too long makes creation fail. */
  predicate PhoneFits(phone: Option<Text>) {
    phone.None? || |phone.value| < PHONESIZE
  }

  predicate Accepted(b: Book, op: Op) {
    match op
    case Create(name, lastName, phone) => name.Some? && lastName.Some? && PhoneFits(phone) && TakenId(b).Some?
    case Remove(id) => id != 0 && HasId(b.contacts, id)
    case EditLastName(id, newName) => newName.Some? && |newName.value| < NAMESIZE && HasId(b.contacts, id)
    case Clear => true
  }

  function Renamed(b: Book, id: nat, newName: Text): Contact
    requires HasId(b.contacts, id)
  {
    b.contacts[IndexOf(b.contacts, id)].(lastName := newName)
  }

  /** The return code, 0 or -1, and the new book; a refused operation changes nothing. */
  function Code(b: Book, op: Op): int {
    if Accepted(b, op) then 0 else -1
  }

  function Apply(b: Book, op: Op): Book {
    if !Accepted(b, op) then b
    else
      match op
      case Create(name, lastName, _) =>
        var contact := Contact(TakenId(b).value, Truncate(name.value), Truncate(lastName.value));
        AfterTake(b).(contacts := InsertSorted(b.contacts, contact))
      case Remove(id) => Book(Without(b.contacts, id), b.nextId, [id] + b.freeIds)
      case EditLastName(id, newName) =>
        b.(contacts := InsertSorted(Without(b.contacts, id), Renamed(b, id, newName.value)))
      case Clear => EMPTY_BOOK
  }

  function Run(b: Book, ops: seq<Op>): Book
    decreases |ops|
  {
    if ops == [] then b else Run(Apply(b, ops[0]), ops[1..])
  }

  function Codes(b: Book, ops: seq<Op>): seq<int>
    decreases |ops|
  {
    if ops == [] then [] else [Code(b, ops[0])] + Codes(Apply(b, ops[0]), ops[1..])
  }

  // ---------- identifiers ----------

  /** The largest identifier issued since the book was last cleared; all smaller ones were issued too. */
  function LastIssued(b: Book): int {
    if b.nextId == 0 then UINT_RANGE - 1 else b.nextId - 1
  }

  /** The identifiers a book accounts for, live and free, with multiplicity. */
  function IdBag(b: Book): multiset<nat> {
    multiset(Ids(b.contacts)) + multiset(b.freeIds)
  }

  /** Every identifier ever issued is accounted for exactly once, and no other at all. */
  ghost predicate IdsExact(b: Book) {
    && b.nextId < UINT_RANGE
    && forall id: nat :: IdBag(b)[id] == if 1 <= id <= LastIssued(b) then 1 else 0
  }

  ghost predicate BookInvariant(b: Book) {
    Sorted(b.contacts) && IdsExact(b)
  }
}
