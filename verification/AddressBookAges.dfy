/**
 * The address book by age: contacts numbered in the order in which they were added. Whatever is renamed or
 * removed, an operation on a name acts on the oldest contact that bears the name at that moment.
 */
module AddressBookAges {
  import opened Wrappers
  import opened Sequences
  import opened AddressBookModel

  /** The contacts by number, and the number of the next one. */
  datatype Archive = Archive(contacts: map<nat, Contact>, next: nat)

  const EMPTY := Archive(map[], 0)

  ghost predicate Bears(a: Archive, id: nat, name: string) {
    id in a.contacts && a.contacts[id].name == name
  }

  /** The oldest contact of a name among those numbered from `id` on. */
  ghost function OldestFrom(a: Archive, id: nat, name: string): (oldest: Option<nat>)
    ensures oldest.Some? ==> id <= oldest.value < a.next && Bears(a, oldest.value, name)
    ensures forall k: nat :: id <= k < (if oldest.Some? then oldest.value else a.next) ==> !Bears(a, k, name)
    decreases a.next - id
  {
    if id >= a.next then None
    else if Bears(a, id, name) then Some(id)
    else OldestFrom(a, id + 1, name)
  }

  ghost function AgeApply(a: Archive, op: Op): Result<Archive, Error> {
    match op
    case Add(name) => Success(Archive(a.contacts[a.next := Blank(name)], a.next + 1))
    case RemoveAll => Success(a.(contacts := map[]))
    case Remove(name) =>
      var id := OldestFrom(a, 0, name);
      Success(if id.Some? then a.(contacts := a.contacts - {id.value}) else a)
    case Rename(name, newName) =>
      var id := OldestFrom(a, 0, name);
      if id.None? then Failure(NoSuchContact)
      else Success(a.(contacts := a.contacts[id.value := a.contacts[id.value].(name := newName)]))
    case Edit(name, change) =>
      var id := OldestFrom(a, 0, name);
      if id.None? then Failure(NoSuchContact)
      else match Changed(a.contacts[id.value], change)
        case Success(c) => Success(a.(contacts := a.contacts[id.value := c]))
        case Failure(e) => Failure(e)
  }

  ghost function AgeRun(a: Archive, ops: seq<Op>): Result<Archive, Error>
    decreases |ops|
  {
    if ops == [] then Success(a)
    else match AgeApply(a, ops[0])
      case Success(next) => AgeRun(next, ops[1..])
      case Failure(EraseAtEnd) => Failure(EraseAtEnd)
      case Failure(_) => AgeRun(a, ops[1..])
  }

  /** The book lists the contacts of the archive by increasing number. */
  ghost predicate Lists(book: seq<Contact>, ids: seq<nat>, a: Archive) {
    && |ids| == |book| && Increasing(ids)
    && a.contacts.Keys == (set id | id in ids)
    && (forall i :: 0 <= i < |ids| ==> ids[i] in a.contacts.Keys && ids[i] < a.next)
    && (forall i :: 0 <= i < |ids| ==> a.contacts[ids[i]] == book[i])
  }

  /** The search from the front finds the oldest bearer. */
  lemma FoundIsOldest(book: seq<Contact>, ids: seq<nat>, a: Archive, name: string)
    requires Lists(book, ids, a)
    ensures |ids| == |book|
    ensures var i := IndexOf(Names(book), name);
            OldestFrom(a, 0, name) == if i < |book| then Some(ids[i]) else None
  {
    var i := IndexOf(Names(book), name);
    var oldest := OldestFrom(a, 0, name);
    assert i < |book| ==> Bears(a, ids[i], name);
    if oldest.Some? {
      var k := PositionOf(book, ids, a, oldest.value);
      assert Names(book)[k] == name;
      hide Lists;
      assert i <= k;
      assert ids[i] <= ids[k];
    }
  }

  lemma PositionOf(book: seq<Contact>, ids: seq<nat>, a: Archive, id: nat) returns (k: nat)
    requires Lists(book, ids, a) && id in a.contacts
    ensures k < |ids| && ids[k] == id && book[k] == a.contacts[id] && Increasing(ids)
  {
    assert id in (set id | id in ids);
    k :| k < |ids| && ids[k] == id;
  }

  lemma ListedAt(book: seq<Contact>, ids: seq<nat>, a: Archive, i: nat)
    requires Lists(book, ids, a) && i < |book|
    ensures |ids| == |book| && ids[i] in a.contacts && a.contacts[ids[i]] == book[i]
  {
  }

  lemma ReplacedLists(book: seq<Contact>, ids: seq<nat>, a: Archive, i: nat, c: Contact)
    requires Lists(book, ids, a) && i < |book|
    ensures Lists(book[i := c], ids, a.(contacts := a.contacts[ids[i] := c]))
  {
    assert a.contacts[ids[i] := c].Keys == a.contacts.Keys;
  }

  lemma ErasedLists(book: seq<Contact>, ids: seq<nat>, a: Archive, i: nat)
    requires Lists(book, ids, a) && i < |book|
    ensures Lists(Erase(book, i), Erase(ids, i), a.(contacts := a.contacts - {ids[i]}))
  {
    var rest := Erase(ids, i);
    ErasedIncreasing(ids, i);
    assert (a.contacts - {ids[i]}).Keys == a.contacts.Keys - {ids[i]};
    forall k | 0 <= k < |rest|
      ensures rest[k] in (a.contacts - {ids[i]}).Keys && rest[k] < a.next
      ensures (a.contacts - {ids[i]})[rest[k]] == Erase(book, i)[k]
    {
      var was := if k < i then k else k + 1;
      assert rest[k] == ids[was] && rest[k] in rest;
    }
  }

  lemma ErasedIncreasing(ids: seq<nat>, i: nat)
    requires Increasing(ids) && i < |ids|
    ensures Increasing(Erase(ids, i))
    ensures (set id | id in Erase(ids, i)) == (set id | id in ids) - {ids[i]}
  {
    EraseDistinct(ids, i);
  }

  lemma AddedLists(book: seq<Contact>, ids: seq<nat>, a: Archive, c: Contact)
    requires Lists(book, ids, a)
    ensures Lists(book + [c], ids + [a.next], Archive(a.contacts[a.next := c], a.next + 1))
  {
    assert forall id :: id in ids + [a.next] <==> id in ids || id == a.next;
    assert a.contacts[a.next := c].Keys == (set id | id in ids + [a.next]);
  }

  lemma NothingLists(a: Archive)
    ensures Lists([], [], a.(contacts := map[]))
  {
  }

  /** Each modifier acts on the oldest bearer of its name, or fails for want of one. */
  lemma StepByAge(book: seq<Contact>, ids: seq<nat>, a: Archive, op: Op) returns (after: seq<nat>)
    requires Lists(book, ids, a)
    ensures match Apply(book, op)
            case Success(next) => AgeApply(a, op).Success? && Lists(next, after, AgeApply(a, op).value)
            case Failure(e) => AgeApply(a, op) == Failure(e) && after == ids
  {
    hide Lists;
    hide Changed;
    after := ids;
    match op {
      case Add(name) =>
        after := ids + [a.next];
        AddedLists(book, ids, a, Blank(name));
      case RemoveAll =>
        after := [];
        NothingLists(a);
      case Remove(name) =>
        var i := IndexOf(Names(book), name);
        FoundIsOldest(book, ids, a, name);
        if i < |book| {
          after := Erase(ids, i);
          ErasedLists(book, ids, a, i);
        }
      case Rename(name, newName) =>
        var i := IndexOf(Names(book), name);
        FoundIsOldest(book, ids, a, name);
        if i < |book| {
          ListedAt(book, ids, a, i);
          ReplacedLists(book, ids, a, i, book[i].(name := newName));
        }
      case Edit(name, change) =>
        var i := IndexOf(Names(book), name);
        FoundIsOldest(book, ids, a, name);
        if i < |book| {
          ListedAt(book, ids, a, i);
          if Changed(book[i], change).Success? {
            ReplacedLists(book, ids, a, i, Changed(book[i], change).value);
          }
        }
    }
  }

  /** Over every run, renamings and shared names included, the array is the archive in order of age. */
  lemma {:induction false} RunByAge(book: seq<Contact>, ids: seq<nat>, a: Archive, ops: seq<Op>)
    returns (after: seq<nat>)
    requires Lists(book, ids, a)
    ensures match Run(book, ops)
            case Success(end) => AgeRun(a, ops).Success? && Lists(end, after, AgeRun(a, ops).value)
            case Failure(e) => AgeRun(a, ops) == Failure(e)
    decreases |ops|
  {
    hide Lists;
    hide Apply;
    hide AgeApply;
    after := ids;
    if ops != [] {
      var next := StepByAge(book, ids, a, ops[0]);
      if Apply(book, ops[0]).Success? {
        after := RunByAge(Apply(book, ops[0]).value, next, AgeApply(a, ops[0]).value, ops[1..]);
      } else if Apply(book, ops[0]).error != EraseAtEnd {
        after := RunByAge(book, ids, a, ops[1..]);
      }
    }
  }

  /** After any run of a new book, a search for a name finds the oldest contact bearing it, and only a bearer. */
  lemma FindsOldest(ops: seq<Op>, name: string)
    requires Run([], ops).Success?
    ensures AgeRun(EMPTY, ops).Success?
    ensures var book := Run([], ops).value;
            var oldest := OldestFrom(AgeRun(EMPTY, ops).value, 0, name);
            && (name in Names(book) <==> oldest.Some?)
            && (oldest.Some? ==>
                  AgeRun(EMPTY, ops).value.contacts[oldest.value] == book[IndexOf(Names(book), name)])
  {
    var ids := RunByAge([], [], EMPTY, ops);
    var book, a := Run([], ops).value, AgeRun(EMPTY, ops).value;
    FoundIsOldest(book, ids, a, name);
    if name in Names(book) { ListedAt(book, ids, a, IndexOf(Names(book), name)); }
  }
}
