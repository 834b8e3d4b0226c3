/** What each operation does to a book, in terms of the contacts alone. */
module BookEffects {
  import opened Bytes
  import opened Wrappers
  import opened BookSpec
  import opened BookRuns

  /** The longest beginning of a text that fits a field of 100 bytes with its terminator. */
  lemma TruncateIsLongest(s: Text)
    ensures Truncate(s) == s[..if |s| < 100 then |s| else 99]
  {
  }

  /** Two lists of contacts differ by one contact that stands at place i of the longer one. */
  predicate OneMore(shorter: seq<Contact>, longer: seq<Contact>, i: nat, c: Contact) {
    i <= |shorter| && longer == shorter[..i] + [c] + shorter[i..]
  }

  /** Some contact has the identifier. */
  ghost predicate HasContact(b: Book, id: nat) {
    exists k :: 0 <= k < |b.contacts| && b.contacts[k].id == id
  }

  lemma HasIdIffHasContact(b: Book, id: nat)
    ensures HasId(b.contacts, id) <==> HasContact(b, id)
  {
    if HasId(b.contacts, id) {
      assert b.contacts[IndexOf(b.contacts, id)].id == id;
    }
  }

  /** Exactly when each operation is accepted, in a book whose identifiers are in order. */
  lemma AcceptedIff(b: Book, op: Op)
    requires IdsExact(b)
    ensures Code(b, op) == (if Accepted(b, op) then 0 else -1)
    ensures match op
            case Create(name, lastName, phone) =>
              Accepted(b, op) <==> name.Some? && lastName.Some? && (phone.Some? ==> |phone.value| <= 11)
                                   && |b.contacts| < 0x1_0000_0000 - 1
            case Remove(id) => Accepted(b, op) <==> HasContact(b, id)
            case EditLastName(id, newName) =>
              Accepted(b, op) <==> newName.Some? && |newName.value| <= 99 && HasContact(b, id)
            case Clear => Accepted(b, op)
  {
    AccountSize(b);
    match op
    case Create(_, _, _) =>
    case Remove(id) =>
      HasIdIffHasContact(b, id);
      ZeroIsNoId(b);
    case EditLastName(id, _) => HasIdIffHasContact(b, id);
    case Clear =>
  }

  lemma ZeroIsNoId(b: Book)
    requires IdsExact(b)
    ensures !HasContact(b, 0)
  {
    ExactAccount(b);
    forall k | 0 <= k < |b.contacts| ensures b.contacts[k].id != 0 {
      assert Ids(b.contacts)[k] == b.contacts[k].id && b.contacts[k].id in Ids(b.contacts);
    }
  }

  /**
   An accepted creation adds one contact with the names given, cut to 99 bytes, behind all that do not come
   after it. Its identifier is the one given back last or, if there is none, the least one never used.
   */
  lemma CreateAdds(b: Book, name: Text, lastName: Text, phone: Option<Text>) returns (i: nat)
    requires IdsExact(b) && Accepted(b, Create(Some(name), Some(lastName), phone))
    ensures var next, c := Apply(b, Create(Some(name), Some(lastName), phone)),
                           Contact(if b.freeIds == [] then |b.contacts| + 1 else b.freeIds[0],
                                   name[..if |name| < 100 then |name| else 99],
                                   lastName[..if |lastName| < 100 then |lastName| else 99]);
            && OneMore(b.contacts, next.contacts, i, c) && Belongs(b.contacts, i, c.lastName)
            && next.freeIds == if b.freeIds == [] then [] else b.freeIds[1..]
  {
    hide Greater, Belongs, InsertSorted;
    var op := Create(Some(name), Some(lastName), phone);
    var c := Contact(TakenId(b).value, Truncate(name), Truncate(lastName));
    AccountSize(b);
    TruncateIsLongest(name);
    TruncateIsLongest(lastName);
    i := InsertedAlphabetically(b.contacts, c);
  }

  /** An accepted removal takes out one contact, the one with the identifier, which is the next to be reused. */
  lemma RemoveTakesOut(b: Book, id: nat) returns (i: nat)
    requires Accepted(b, Remove(id))
    ensures var next := Apply(b, Remove(id));
            && i < |b.contacts| && b.contacts[i].id == id && OneMore(next.contacts, b.contacts, i, b.contacts[i])
            && next.freeIds == [id] + b.freeIds
  {
    i := IndexOf(b.contacts, id);
    var rest := Without(b.contacts, id);
    assert rest[..i] == b.contacts[..i] && rest[i..] == b.contacts[i + 1..];
    assert b.contacts == b.contacts[..i] + [b.contacts[i]] + b.contacts[i + 1..];
  }

  /** An accepted renaming gives the contact with the identifier, and no other, the new last name and place. */
  lemma EditMoves(b: Book, id: nat, newName: Text) returns (rest: seq<Contact>, i: nat, j: nat)
    requires Accepted(b, EditLastName(id, Some(newName)))
    ensures var next := Apply(b, EditLastName(id, Some(newName)));
            && i < |b.contacts| && b.contacts[i].id == id && OneMore(rest, b.contacts, i, b.contacts[i])
            && OneMore(rest, next.contacts, j, Contact(id, b.contacts[i].name, newName)) && Belongs(rest, j, newName)
            && next.freeIds == b.freeIds
  {
    hide Greater, Belongs, InsertSorted;
    i, rest := IndexOf(b.contacts, id), Without(b.contacts, id);
    var c := Renamed(b, id, newName);
    assert rest[..i] == b.contacts[..i] && rest[i..] == b.contacts[i + 1..];
    assert b.contacts == b.contacts[..i] + [b.contacts[i]] + b.contacts[i + 1..];
    j := InsertedAlphabetically(rest, c);
  }

  /** The identifier of the contact removed last is the next one given out. */
  lemma RemovedIsReused(b: Book, id: nat, name: Text, lastName: Text, phone: Option<Text>)
    requires BookInvariant(b) && Accepted(b, Remove(id)) && (phone.Some? ==> |phone.value| <= 11)
    ensures var next := Apply(Apply(b, Remove(id)), Create(Some(name), Some(lastName), phone));
            HasContact(next, id) && next.freeIds == b.freeIds && |next.contacts| == |b.contacts|
  {
    var removed := Apply(b, Remove(id));
    var at := RemoveTakesOut(b, id);
    ApplyKeepsInvariant(b, Remove(id));
    var i := CreateAdds(removed, name, lastName, phone);
    var next := Apply(removed, Create(Some(name), Some(lastName), phone));
    assert next.contacts[i].id == id;
    assert removed.freeIds[1..] == b.freeIds;
  }
}
