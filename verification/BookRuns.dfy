/** What every run of book operations keeps: sorted contacts and an exact account of identifiers. */
module BookRuns {
  import opened Bytes
  import opened Wrappers
  import opened BookSpec

  ghost predicate Distinct(s: seq<nat>) {
    forall i, j :: 0 <= i < j < |s| ==> s[i] != s[j]
  }

  // ---------- identifiers through insertion and removal ----------

  lemma IdsOfConcat(a: seq<Contact>, b: seq<Contact>)
    ensures Ids(a + b) == Ids(a) + Ids(b)
  {
  }

  lemma IdsOfInsert(s: seq<Contact>, c: Contact)
    ensures multiset(Ids(InsertSorted(s, c))) == multiset(Ids(s)) + multiset{c.id}
  {
    InsertSortedIsSplice(s, c);
    var i := InsertIndex(s, c);
    assert s == s[..i] + s[i..];
    IdsOfConcat(s[..i], s[i..]);
    IdsOfConcat(s[..i] + [c], s[i..]);
    IdsOfConcat(s[..i], [c]);
    assert Ids([c]) == [c.id];
  }

  lemma IdsOfWithout(s: seq<Contact>, id: nat)
    requires HasId(s, id)
    ensures multiset(Ids(s)) == multiset(Ids(Without(s, id))) + multiset{id}
  {
    var i := IndexOf(s, id);
    assert s == s[..i] + [s[i]] + s[i + 1..];
    IdsOfConcat(s[..i] + [s[i]], s[i + 1..]);
    IdsOfConcat(s[..i], [s[i]]);
    IdsOfConcat(s[..i], s[i + 1..]);
    assert Ids([s[i]]) == [id];
  }

  lemma WithoutKeepsSorted(s: seq<Contact>, id: nat)
    requires Sorted(s)
    ensures Sorted(Without(s, id))
  {
  }

  // ---------- the invariant of every operation and every run ----------

  lemma CreateKeepsInvariant(b: Book, name: Text, lastName: Text, phone: Option<Text>)
    requires BookInvariant(b) && TakenId(b).Some? && PhoneFits(phone)
    ensures BookInvariant(Apply(b, Create(Some(name), Some(lastName), phone)))
  {
    var op := Create(Some(name), Some(lastName), phone);
    var c := Contact(TakenId(b).value, Truncate(name), Truncate(lastName));
    var next := Apply(b, op);
    assert next.contacts == InsertSorted(b.contacts, c);
    InsertKeepsSorted(b.contacts, c);
    TakeKeepsAccount(b, c);
    assert IdBag(next) == multiset(Ids(InsertSorted(b.contacts, c))) + multiset(AfterTake(b).freeIds);
  }

  /** A reused identifier leaves the account as it was; a new one extends it by one. */
  lemma TakenIdEntersAccount(b: Book, c: Contact)
    requires TakenId(b) == Some(c.id)
    ensures IdBag(AfterTake(b).(contacts := InsertSorted(b.contacts, c))) ==
            if b.freeIds != [] then IdBag(b) else IdBag(b) + multiset{b.nextId}
  {
    var next := AfterTake(b);
    var live := multiset(Ids(b.contacts));
    IdsOfInsert(b.contacts, c);
    if b.freeIds != [] {
      assert b.freeIds == [c.id] + next.freeIds;
    }
    assert multiset(Ids(InsertSorted(b.contacts, c))) + multiset(next.freeIds)
        == live + (multiset{c.id} + multiset(next.freeIds));
  }

  lemma TakeAdvances(b: Book)
    requires b.nextId < UINT_RANGE && TakenId(b).Some?
    ensures AfterTake(b).nextId < UINT_RANGE
    ensures LastIssued(AfterTake(b)) == LastIssued(b) + if b.freeIds != [] then 0 else 1
    ensures b.freeIds == [] ==> b.nextId == LastIssued(b) + 1
  {
  }

  lemma TakeKeepsAccount(b: Book, c: Contact)
    requires IdsExact(b) && TakenId(b) == Some(c.id)
    ensures IdsExact(AfterTake(b).(contacts := InsertSorted(b.contacts, c)))
  {
    var next := AfterTake(b).(contacts := InsertSorted(b.contacts, c));
    TakenIdEntersAccount(b, c);
    TakeAdvances(b);
    assert LastIssued(next) == LastIssued(AfterTake(b));
    hide AfterTake, LastIssued, IdBag, InsertSorted;
    forall id: nat
      ensures IdBag(next)[id] == if 1 <= id <= LastIssued(next) then 1 else 0
    {
      assert IdBag(b)[id] == if 1 <= id <= LastIssued(b) then 1 else 0;
    }
  }

  lemma RemoveKeepsInvariant(b: Book, id: nat)
    requires BookInvariant(b) && HasId(b.contacts, id)
    ensures BookInvariant(Book(Without(b.contacts, id), b.nextId, [id] + b.freeIds))
  {
    WithoutKeepsSorted(b.contacts, id);
    IdsOfWithout(b.contacts, id);
    hide Sorted, Without, Ids;
    assert IdBag(Book(Without(b.contacts, id), b.nextId, [id] + b.freeIds)) == IdBag(b);
  }

  lemma EditKeepsInvariant(b: Book, id: nat, newName: Text)
    requires BookInvariant(b) && HasId(b.contacts, id)
    ensures BookInvariant(b.(contacts := InsertSorted(Without(b.contacts, id), Renamed(b, id, newName))))
  {
    WithoutKeepsSorted(b.contacts, id);
    IdsOfWithout(b.contacts, id);
    InsertKeepsSorted(Without(b.contacts, id), Renamed(b, id, newName));
    IdsOfInsert(Without(b.contacts, id), Renamed(b, id, newName));
    hide Sorted, Without, Ids, InsertSorted;
    assert IdBag(b.(contacts := InsertSorted(Without(b.contacts, id), Renamed(b, id, newName)))) == IdBag(b);
  }

  lemma ApplyKeepsInvariant(b: Book, op: Op)
    requires BookInvariant(b)
    ensures BookInvariant(Apply(b, op))
  {
    if Accepted(b, op) {
      match op
      case Create(name, lastName, phone) => CreateKeepsInvariant(b, name.value, lastName.value, phone);
      case Remove(id) => RemoveKeepsInvariant(b, id);
      case EditLastName(id, newName) => EditKeepsInvariant(b, id, newName.value);
      case Clear =>
    }
  }

  /** In every reachable state the contacts are sorted and the identifiers are exact. */
  lemma {:induction false} RunKeepsInvariant(b: Book, ops: seq<Op>)
    requires BookInvariant(b)
    ensures BookInvariant(Run(b, ops))
    decreases |ops|
  {
    if ops != [] {
      ApplyKeepsInvariant(b, ops[0]);
      RunKeepsInvariant(Apply(b, ops[0]), ops[1..]);
    }
  }

  // ---------- what an exact account means ----------

  lemma DistinctFromMultiset(s: seq<nat>)
    requires forall x: nat :: multiset(s)[x] <= 1
    ensures Distinct(s)
  {
    forall i, j | 0 <= i < j < |s|
      ensures s[i] != s[j]
    {
      assert s == s[..i] + [s[i]] + s[i + 1..j] + [s[j]] + s[j + 1..];
      assert multiset(s)[s[i]] >= if s[i] == s[j] then 2 else 1;
    }
  }

  /**
   Live identifiers are distinct, free ones are distinct, the two are disjoint, 0 is never used,
   and an identifier was issued exactly when it is one or the other.
   */
  lemma ExactAccount(b: Book)
    requires IdsExact(b)
    ensures Distinct(Ids(b.contacts)) && Distinct(b.freeIds)
    ensures forall id: nat :: !(id in Ids(b.contacts) && id in b.freeIds)
    ensures forall id: nat :: (id in Ids(b.contacts) || id in b.freeIds) <==> 1 <= id <= LastIssued(b)
  {
    var live, free := multiset(Ids(b.contacts)), multiset(b.freeIds);
    forall id: nat
      ensures live[id] <= 1 && free[id] <= 1 && live[id] + free[id] == IdBag(b)[id]
    {
      assert IdBag(b)[id] <= 1;
    }
    DistinctFromMultiset(Ids(b.contacts));
    DistinctFromMultiset(b.freeIds);
    forall id: nat
      ensures !(id in Ids(b.contacts) && id in b.freeIds)
      ensures (id in Ids(b.contacts) || id in b.freeIds) <==> 1 <= id <= LastIssued(b)
    {
      assert id in Ids(b.contacts) <==> id in live;
      assert id in b.freeIds <==> id in free;
      assert live[id] + free[id] == IdBag(b)[id];
    }
  }

  /** A multiset holding each of 1..n once has n elements. */
  lemma {:induction false} BagSize(bag: multiset<nat>, n: nat)
    requires forall id: nat :: bag[id] == if 1 <= id <= n then 1 else 0
    ensures |bag| == n
    decreases n
  {
    if n == 0 {
      assert bag == multiset{};
    } else {
      BagSize(bag - multiset{n}, n - 1);
      assert bag == bag - multiset{n} + multiset{n};
    }
  }

  /** Live and free identifiers together number exactly those issued. */
  lemma AccountSize(b: Book)
    requires IdsExact(b)
    ensures |b.contacts| + |b.freeIds| == LastIssued(b)
  {
    BagSize(IdBag(b), LastIssued(b));
    assert |IdBag(b)| == |multiset(Ids(b.contacts))| + |multiset(b.freeIds)|;
  }

  /** Creating with proper strings fails exactly when all 2^32 - 1 identifiers are live. */
  lemma CreateRefusedWhenFull(b: Book, name: Text, lastName: Text, phone: Option<Text>)
    requires IdsExact(b) && PhoneFits(phone)
    ensures Code(b, Create(Some(name), Some(lastName), phone)) == -1 <==> |b.contacts| == UINT_RANGE - 1
  {
    AccountSize(b);
  }

  /** Identifiers and order in every state reachable from an empty book. */
  lemma ReachableBooks(ops: seq<Op>)
    ensures BookInvariant(Run(EMPTY_BOOK, ops)) && Alphabetical(Run(EMPTY_BOOK, ops).contacts)
    ensures var b := Run(EMPTY_BOOK, ops);
            && Distinct(Ids(b.contacts)) && Distinct(b.freeIds)
            && (forall id: nat :: !(id in Ids(b.contacts) && id in b.freeIds))
            && (forall id: nat :: (id in Ids(b.contacts) || id in b.freeIds) <==> 1 <= id <= LastIssued(b))
  {
    assert IdBag(EMPTY_BOOK) == multiset{};
    RunKeepsInvariant(EMPTY_BOOK, ops);
    SortedIsAlphabetical(Run(EMPTY_BOOK, ops).contacts);
    ExactAccount(Run(EMPTY_BOOK, ops));
  }
}
