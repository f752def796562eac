/**
 * The address book as a value: an ordered array of contacts, each with an array of
 * categories and an array of wallet entries, searched from the front.
 */
module AddressBookModel {
  import opened Wrappers
  import opened Sequences

  datatype WalletInfo = WalletInfo(kind: string, addresses: map<string, string>)

  datatype Contact = Contact(name: string, categories: seq<string>, wallets: seq<WalletInfo>)

  /** `EraseAtEnd` is not an exception: it marks the erasure of a past-the-end iterator. */
  datatype Error = NoSuchContact | NoSuchWallet | NoSuchKey | EraseAtEnd

  /** Modifiers of one contact. */
  datatype Change =
    | SetAddress(kind: string, key: string, address: string)
    | RemoveWallet(kind: string)
    | RemoveAddress(kind: string, key: string)
    | RemoveEveryWallet
    | AddCategory(category: string)
    | RemoveCategory(category: string)
    | ResetCategories

  /** Modifiers of the whole book. */
  datatype Op =
    | Add(name: string)
    | Remove(name: string)
    | RemoveAll
    | Rename(name: string, newName: string)
    | Edit(name: string, change: Change)

  function Names(book: seq<Contact>): (names: seq<string>)
    ensures |names| == |book|
    ensures forall i :: 0 <= i < |book| ==> names[i] == book[i].name
  {
    seq(|book|, i requires 0 <= i < |book| => book[i].name)
  }

  function Kinds(wallets: seq<WalletInfo>): (kinds: seq<string>)
    ensures |kinds| == |wallets|
    ensures forall i :: 0 <= i < |wallets| ==> kinds[i] == wallets[i].kind
  {
    seq(|wallets|, i requires 0 <= i < |wallets| => wallets[i].kind)
  }

  function Blank(name: string): Contact {
    Contact(name, [], [])
  }

  /** The wallet entries of other kinds, in order. */
  function WithoutKind(wallets: seq<WalletInfo>, kind: string): (rest: seq<WalletInfo>)
    ensures |rest| <= |wallets|
  {
    if wallets == [] then []
    else
      var rest := WithoutKind(wallets[..|wallets| - 1], kind);
      var last := wallets[|wallets| - 1];
      if last.kind == kind then rest else rest + [last]
  }

  function WithAddress(wallets: seq<WalletInfo>, kind: string, key: string, address: string): seq<WalletInfo> {
    var i := IndexOf(Kinds(wallets), kind);
    if i < |wallets| then wallets[i := WalletInfo(kind, wallets[i].addresses[key := address])]
    else wallets + [WalletInfo(kind, map[key := address])]
  }

  function WithoutAddress(wallets: seq<WalletInfo>, kind: string, key: string): seq<WalletInfo>
    requires kind in Kinds(wallets)
  {
    var i := IndexOf(Kinds(wallets), kind);
    var rest := wallets[i].addresses - {key};
    if rest == map[] then WithoutKind(wallets, kind) else wallets[i := WalletInfo(kind, rest)]
  }

  /** What a modifier does to the contact it is applied to. */
  function Changed(c: Contact, change: Change): Result<Contact, Error> {
    match change
    case SetAddress(kind, key, address) =>
      Success(c.(wallets := WithAddress(c.wallets, kind, key, address)))
    case RemoveWallet(kind) =>
      if kind !in Kinds(c.wallets) then Failure(EraseAtEnd)
      else Success(c.(wallets := WithoutKind(c.wallets, kind)))
    case RemoveAddress(kind, key) =>
      if kind !in Kinds(c.wallets) then Failure(NoSuchWallet)
      else Success(c.(wallets := WithoutAddress(c.wallets, kind, key)))
    case RemoveEveryWallet =>
      Success(c.(wallets := []))
    case AddCategory(category) =>
      Success(if category in c.categories then c else c.(categories := c.categories + [category]))
    case RemoveCategory(category) =>
      var i := IndexOf(c.categories, category);
      Success(if i < |c.categories| then c.(categories := Erase(c.categories, i)) else c)
    case ResetCategories =>
      Success(c.(categories := []))
  }

  /** What a modifier does to the book; only the first bearer of a name is ever touched. */
  function Apply(book: seq<Contact>, op: Op): Result<seq<Contact>, Error> {
    match op
    case Add(name) => Success(book + [Blank(name)])
    case Remove(name) =>
      var i := IndexOf(Names(book), name);
      Success(if i < |book| then Erase(book, i) else book)
    case RemoveAll => Success([])
    case Rename(name, newName) =>
      var i := IndexOf(Names(book), name);
      if i == |book| then Failure(NoSuchContact)
      else Success(book[i := book[i].(name := newName)])
    case Edit(name, change) =>
      var i := IndexOf(Names(book), name);
      if i == |book| then Failure(NoSuchContact)
      else match Changed(book[i], change)
        case Success(c) => Success(book[i := c])
        case Failure(e) => Failure(e)
  }

  /** A run of modifiers: an exception leaves the book as it was; erasing past the end ends the run. */
  function Run(book: seq<Contact>, ops: seq<Op>): Result<seq<Contact>, Error>
    decreases |ops|
  {
    if ops == [] then Success(book)
    else match Apply(book, ops[0])
      case Success(next) => Run(next, ops[1..])
      case Failure(EraseAtEnd) => Failure(EraseAtEnd)
      case Failure(_) => Run(book, ops[1..])
  }

  /** The representation invariant of one contact. */
  ghost predicate ValidContact(c: Contact) {
    && Distinct(Kinds(c.wallets))
    && (forall i :: 0 <= i < |c.wallets| ==> c.wallets[i].addresses != map[])
    && Distinct(c.categories)
  }

  /** The representation invariant of the book. Contact names may repeat. */
  ghost predicate ValidBook(book: seq<Contact>) {
    forall i :: 0 <= i < |book| ==> ValidContact(book[i])
  }

  // ---- wallet entries ----

  lemma {:induction false} WithoutAbsentKind(wallets: seq<WalletInfo>, kind: string)
    requires forall i :: 0 <= i < |wallets| ==> wallets[i].kind != kind
    ensures WithoutKind(wallets, kind) == wallets
  {
    if wallets != [] {
      WithoutAbsentKind(wallets[..|wallets| - 1], kind);
    }
  }

  /** With one entry per kind, filtering a kind out is erasing one slot. */
  lemma {:induction false} WithoutKindIsErase(wallets: seq<WalletInfo>, i: nat)
    requires Distinct(Kinds(wallets)) && i < |wallets|
    ensures WithoutKind(wallets, wallets[i].kind) == Erase(wallets, i)
  {
    var front := wallets[..|wallets| - 1];
    var kind := wallets[i].kind;
    assert forall k :: 0 <= k < |front| ==> Kinds(front)[k] == Kinds(wallets)[k];
    assert Kinds(wallets)[i] == kind;
    if i == |wallets| - 1 {
      assert forall k :: 0 <= k < |front| ==> front[k].kind == Kinds(wallets)[k];
      WithoutAbsentKind(front, kind);
      assert Erase(wallets, i) == front;
    } else {
      WithoutKindIsErase(front, i);
      assert Kinds(wallets)[|wallets| - 1] == wallets[|wallets| - 1].kind;
      assert Erase(wallets, i) == Erase(front, i) + [wallets[|wallets| - 1]];
    }
  }

  /** The addresses of an entry do not matter for its removal. */
  lemma SameWithoutEntry(wallets: seq<WalletInfo>, j: nat, addresses: map<string, string>)
    requires Distinct(Kinds(wallets)) && j < |wallets|
    ensures var after := wallets[j := WalletInfo(wallets[j].kind, addresses)];
            && Kinds(after) == Kinds(wallets)
            && WithoutKind(after, wallets[j].kind) == WithoutKind(wallets, wallets[j].kind)
  {
    var after := wallets[j := WalletInfo(wallets[j].kind, addresses)];
    assert Kinds(after) == Kinds(wallets);
    WithoutKindIsErase(wallets, j);
    WithoutKindIsErase(after, j);
    assert Erase(after, j) == Erase(wallets, j);
  }

  lemma EraseKinds(wallets: seq<WalletInfo>, i: nat)
    requires i < |wallets|
    ensures Kinds(Erase(wallets, i)) == Erase(Kinds(wallets), i)
  {
  }

  /** Every modifier of a contact keeps its representation invariant and its name. */
  lemma ChangedValid(c: Contact, change: Change)
    requires ValidContact(c)
    ensures Changed(c, change).Success? ==>
              ValidContact(Changed(c, change).value) && Changed(c, change).value.name == c.name
  {
    var kinds := Kinds(c.wallets);
    match change
    case SetAddress(kind, key, address) =>
      WithAddressValid(c.wallets, kind, key, address);
    case RemoveWallet(kind) =>
      if kind in kinds { WithoutKindValid(c.wallets, kind); }
    case RemoveAddress(kind, key) =>
      if kind in kinds {
        WithoutKindValid(c.wallets, kind);
        var i := IndexOf(kinds, kind);
        assert Kinds(c.wallets[i := WalletInfo(kind, c.wallets[i].addresses - {key})]) == kinds;
      }
    case RemoveCategory(category) =>
      var i := IndexOf(c.categories, category);
      if i < |c.categories| { EraseDistinct(c.categories, i); }
    case _ =>
  }

  lemma WithAddressValid(wallets: seq<WalletInfo>, kind: string, key: string, address: string)
    requires Distinct(Kinds(wallets))
    requires forall i :: 0 <= i < |wallets| ==> wallets[i].addresses != map[]
    ensures Distinct(Kinds(WithAddress(wallets, kind, key, address)))
    ensures forall i :: 0 <= i < |WithAddress(wallets, kind, key, address)| ==>
              WithAddress(wallets, kind, key, address)[i].addresses != map[]
  {
    var after := WithAddress(wallets, kind, key, address);
    var i := IndexOf(Kinds(wallets), kind);
    if i < |wallets| {
      assert Kinds(after) == Kinds(wallets);
    } else {
      assert Kinds(after) == Kinds(wallets) + [kind];
    }
    assert after[i].addresses[key] == address;
  }

  lemma WithoutKindValid(wallets: seq<WalletInfo>, kind: string)
    requires Distinct(Kinds(wallets)) && kind in Kinds(wallets)
    requires forall i :: 0 <= i < |wallets| ==> wallets[i].addresses != map[]
    ensures Distinct(Kinds(WithoutKind(wallets, kind)))
    ensures forall i :: 0 <= i < |WithoutKind(wallets, kind)| ==> WithoutKind(wallets, kind)[i].addresses != map[]
  {
    var i := IndexOf(Kinds(wallets), kind);
    WithoutKindIsErase(wallets, i);
    EraseKinds(wallets, i);
    EraseDistinct(Kinds(wallets), i);
  }

  /** Every modifier of the book keeps the invariant, even when contacts share a name. */
  lemma ApplyValid(book: seq<Contact>, op: Op)
    requires ValidBook(book)
    ensures Apply(book, op).Success? ==> ValidBook(Apply(book, op).value)
  {
    if op.Edit? {
      var i := IndexOf(Names(book), op.name);
      if i < |book| { ChangedValid(book[i], op.change); }
    }
  }

  /** The invariant holds after every run from a valid book, in particular from an empty one. */
  lemma {:induction false} RunValid(book: seq<Contact>, ops: seq<Op>)
    requires ValidBook(book)
    ensures Run(book, ops).Success? ==> ValidBook(Run(book, ops).value)
    decreases |ops|
  {
    if ops != [] {
      ApplyValid(book, ops[0]);
      match Apply(book, ops[0])
      case Success(next) => RunValid(next, ops[1..]);
      case Failure(_) => RunValid(book, ops[1..]);
    }
  }
}
