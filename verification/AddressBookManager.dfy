/** The address book manager: linear searches and in-place updates of the nested arrays. */
module AddressBookManager {
  import opened Wrappers
  import opened Sequences
  import opened AddressBookModel
  import opened AddressBookRefinement

  // ---- the removal of a wallet kind: a shift loop, then the erasure of a single slot ----

  /** A slot of the array while it is being shifted; moving an entry out leaves an empty value behind. */
  datatype Slot = Entry(info: WalletInfo) | MovedFrom

  function Entries(wallets: seq<WalletInfo>): (slots: seq<Slot>)
    ensures |slots| == |wallets|
    ensures forall i :: 0 <= i < |wallets| ==> slots[i] == Entry(wallets[i])
  {
    seq(|wallets|, i requires 0 <= i < |wallets| => Entry(wallets[i]))
  }

  lemma WithoutKindNext(wallets: seq<WalletInfo>, n: nat, kind: string)
    requires n < |wallets|
    ensures WithoutKind(wallets[..n + 1], kind)
         == if wallets[n].kind == kind then WithoutKind(wallets[..n], kind)
            else WithoutKind(wallets[..n], kind) + [wallets[n]]
  {
    assert wallets[..n + 1][..n] == wallets[..n];
  }

  /** What stays behind the kept entries: those of the kind untouched, those moved forward empty. */
  function Leftover(entry: WalletInfo, kind: string): Slot {
    if entry.kind == kind then Entry(entry) else MovedFrom
  }

  /** The array midway: kept entries, what stays behind them, and the entries still to be looked at. */
  ghost predicate Shifted(slots: seq<Slot>, wallets: seq<WalletInfo>, kept: seq<WalletInfo>, first: nat, kind: string) {
    && |kept| <= first <= |slots| == |wallets|
    && (forall k :: 0 <= k < |kept| ==> slots[k] == Entry(kept[k]))
    && (forall k :: |kept| <= k < first ==> slots[k] == Leftover(wallets[k], kind))
    && (forall k :: first <= k < |slots| ==> slots[k] == Entry(wallets[k]))
  }

  lemma ShiftNext(slots: seq<Slot>, wallets: seq<WalletInfo>, kept: seq<WalletInfo>, first: nat, kind: string)
    requires Shifted(slots, wallets, kept, first, kind) && first < |slots|
    ensures |kept| <= first && slots[first] == Entry(wallets[first])
    ensures wallets[first].kind == kind ==> Shifted(slots, wallets, kept, first + 1, kind)
    ensures wallets[first].kind != kind ==>
              var after := if |kept| == first then slots else slots[|kept| := slots[first]][first := MovedFrom];
              Shifted(after, wallets, kept + [wallets[first]], first + 1, kind)
  {
  }

  lemma ShiftStart(wallets: seq<WalletInfo>, kind: string)
    ensures Shifted(Entries(wallets), wallets, [], 0, kind)
  {
  }

  /** The shift loop: the entries of other kinds move to the front, in order. */
  method RemoveIf(slots: array<Slot>, kind: string, ghost wallets: seq<WalletInfo>) returns (end: nat)
    requires slots[..] == Entries(wallets)
    modifies slots
    ensures end == |WithoutKind(wallets, kind)| <= slots.Length
    ensures Shifted(slots[..], wallets, WithoutKind(wallets, kind), slots.Length, kind)
  {
    end := 0;
    var first := 0;
    ghost var kept := WithoutKind(wallets[..0], kind);
    ShiftStart(wallets, kind);
    hide WithoutKind;
    hide Shifted;
    assert |slots[..]| == |wallets|;
    while first < slots.Length
      invariant end == |kept| <= first <= slots.Length == |wallets|
      invariant kept == WithoutKind(wallets[..first], kind)
      invariant Shifted(slots[..], wallets, kept, first, kind)
    {
      ghost var before := slots[..];
      WithoutKindNext(wallets, first, kind);
      ShiftNext(before, wallets, kept, first, kind);
      if slots[first].info.kind != kind {
        if end != first {
          slots[end] := slots[first];
          slots[first] := MovedFrom;
          assert slots[..] == before[end := before[first]][first := MovedFrom];
        }
        kept := kept + [wallets[first]];
        end := end + 1;
      }
      first := first + 1;
    }
    assert wallets[..first] == wallets;
  }

  lemma {:induction false} WithoutKindLength(wallets: seq<WalletInfo>, kind: string)
    ensures |WithoutKind(wallets, kind)| + multiset(Kinds(wallets))[kind] == |wallets|
  {
    if wallets != [] {
      var front := wallets[..|wallets| - 1];
      assert Kinds(wallets) == Kinds(front) + [wallets[|wallets| - 1].kind];
      WithoutKindLength(front, kind);
    }
  }

  lemma DistinctOnce(kinds: seq<string>, kind: string)
    requires Distinct(kinds) && kind in kinds
    ensures multiset(kinds)[kind] == 1
  {
    var i := IndexOf(kinds, kind);
    assert kinds == kinds[..i] + [kind] + kinds[i + 1..];
    assert kind !in kinds[..i] && kind !in kinds[i + 1..];
    assert kind !in multiset(kinds[..i]) && kind !in multiset(kinds[i + 1..]);
  }

  /**
   * Shifting and then erasing the one slot at the end of the kept entries filters the kind out
   * exactly when the array held one entry of that kind; with more, leftover slots remain.
   */
  method ShiftAndEraseOne(wallets: seq<WalletInfo>, kind: string) returns (slots: seq<Slot>)
    requires kind in Kinds(wallets)
    ensures |slots| == |wallets| - 1
    ensures var end := |WithoutKind(wallets, kind)|;
            && end <= |slots| && slots[..end] == Entries(WithoutKind(wallets, kind))
            && forall k :: end <= k < |slots| ==> slots[k] == Leftover(wallets[k + 1], kind)
    ensures slots == Entries(WithoutKind(wallets, kind)) <==> multiset(Kinds(wallets))[kind] == 1
  {
    var entries := Entries(wallets);
    var cells := new Slot[|wallets|](i requires 0 <= i < |entries| => entries[i]);
    var end := RemoveIf(cells, kind, wallets);
    WithoutKindLength(wallets, kind);
    assert kind in multiset(Kinds(wallets));
    slots := Erase(cells[..], end);
    assert slots[..end] == Entries(WithoutKind(wallets, kind));
    if |slots| == end { assert slots[..end] == slots; }
  }

  /** With two entries of the kind, the second one is still there after the removal. */
  method SecondEntrySurvives(first: WalletInfo, second: WalletInfo) returns (slots: seq<Slot>)
    requires first.kind == second.kind
    ensures WithoutKind([first, second], first.kind) == []
    ensures slots == [Entry(second)]
  {
    assert Kinds([first, second])[0] == first.kind;
    assert [first, second][..1] == [first] && [first][..0] == [];
    slots := ShiftAndEraseOne([first, second], first.kind);
  }

  // ---- the manager ----

  /** The call threw, and the book is as before; or it did what the modifier means. */
  ghost predicate Performs(before: seq<Contact>, op: Op, r: Outcome<Error>, after: seq<Contact>) {
    match Apply(before, op)
    case Success(book) => r.Pass? && after == book
    case Failure(e) => r == Fail(e) && after == before
  }

  lemma AddCategoryMeans(book: seq<Contact>, name: string, category: string)
    ensures var i := IndexOf(Names(book), name);
            if i == |book| then Apply(book, Edit(name, AddCategory(category))) == Failure(NoSuchContact)
            else
              && (category in DirectoryOf(book)[name].categories <==> category in book[i].categories)
              && Apply(book, Edit(name, AddCategory(category))) == Success(
                   if category in book[i].categories then book
                   else book[i := book[i].(categories := book[i].categories + [category])])
  {
    var i := IndexOf(Names(book), name);
    if i < |book| { assert book[i := book[i]] == book; }
  }

  class AddressBook {
    var data: seq<Contact>

    ghost predicate Valid()
      reads this
    {
      ValidBook(data)
    }

    constructor ()
      ensures Valid() && data == []
    {
      data := [];
    }

    /** Where the search for a contact stops. */
    method FindContact(name: string) returns (i: nat)
      ensures i == IndexOf(Names(data), name)
    {
      i := 0;
      while i < |data| && data[i].name != name
        invariant i <= |data|
        invariant forall j :: 0 <= j < i ==> data[j].name != name
      {
        i := i + 1;
      }
      if i < |data| { IndexOfUnique(Names(data), name, i); }
    }

    static method FindWallet(wallets: seq<WalletInfo>, kind: string) returns (i: nat)
      ensures i == IndexOf(Kinds(wallets), kind)
    {
      i := 0;
      while i < |wallets| && wallets[i].kind != kind
        invariant i <= |wallets|
        invariant forall j :: 0 <= j < i ==> wallets[j].kind != kind
      {
        i := i + 1;
      }
      if i < |wallets| { IndexOfUnique(Kinds(wallets), kind, i); }
    }

    static method FindCategory(categories: seq<string>, category: string) returns (i: nat)
      ensures i == IndexOf(categories, category)
    {
      i := 0;
      while i < |categories| && categories[i] != category
        invariant i <= |categories|
        invariant forall j :: 0 <= j < i ==> categories[j] != category
      {
        i := i + 1;
      }
      if i < |categories| { IndexOfUnique(categories, category, i); }
    }

    // ---- lookups: the nested map's answers ----

    /** The oldest contact of the name. */
    method GetContact(name: string) returns (r: Result<Contact, Error>)
      ensures r == if Bearers(data, name) == [] then Failure(NoSuchContact) else Success(Bearers(data, name)[0])
      ensures r.Success? <==> name in DirectoryOf(data)
      ensures r.Success? ==> CardOf(r.value) == DirectoryOf(data)[name] && r.value.name == name
    {
      var i := FindContact(name);
      FirstBearer(data, name);
      r := if i == |data| then Failure(NoSuchContact) else Success(data[i]);
    }

    method HasContact(name: string) returns (r: bool)
      ensures r <==> name in DirectoryOf(data)
    {
      var i := FindContact(name);
      r := i < |data|;
    }

    method GetWalletInfo(name: string, kind: string) returns (r: Result<WalletInfo, Error>)
      ensures name !in DirectoryOf(data) ==> r == Failure(NoSuchContact)
      ensures name in DirectoryOf(data) && kind !in DirectoryOf(data)[name].wallets ==> r == Failure(NoSuchWallet)
      ensures name in DirectoryOf(data) && kind in DirectoryOf(data)[name].wallets ==>
                r == Success(WalletInfo(kind, DirectoryOf(data)[name].wallets[kind]))
    {
      var c := GetContact(name);
      if c.Failure? {
        return Failure(c.error);
      }
      var i := FindWallet(c.value.wallets, kind);
      r := if i == |c.value.wallets| then Failure(NoSuchWallet) else Success(c.value.wallets[i]);
    }

    method GetWalletInfoAddress(name: string, kind: string, key: string) returns (r: Result<string, Error>)
      ensures r == (var dir := DirectoryOf(data);
                    if name !in dir then Failure(NoSuchContact)
                    else if kind !in dir[name].wallets then Failure(NoSuchWallet)
                    else if key !in dir[name].wallets[kind] then Failure(NoSuchKey)
                    else Success(dir[name].wallets[kind][key]))
    {
      var w := GetWalletInfo(name, kind);
      r := if w.Failure? then Failure(w.error)
           else if key !in w.value.addresses then Failure(NoSuchKey)
           else Success(w.value.addresses[key]);
    }

    method HasWalletInfo(name: string, kind: string) returns (r: Result<bool, Error>)
      ensures r == (var dir := DirectoryOf(data);
                    if name !in dir then Failure(NoSuchContact) else Success(kind in dir[name].wallets))
    {
      var c := GetContact(name);
      if c.Failure? {
        return Failure(c.error);
      }
      var i := FindWallet(c.value.wallets, kind);
      r := Success(i < |c.value.wallets|);
    }

    method HasWalletKey(name: string, kind: string, key: string) returns (r: Result<bool, Error>)
      ensures r == (var dir := DirectoryOf(data);
                    if name !in dir then Failure(NoSuchContact)
                    else Success(kind in dir[name].wallets && key in dir[name].wallets[kind]))
    {
      var has := HasWalletInfo(name, kind);
      if has.Success? && has.value {
        var w := GetWalletInfo(name, kind);
        return Success(key in w.value.addresses);
      }
      r := has;
    }

    method HasCategory(name: string, category: string) returns (r: Result<bool, Error>)
      ensures r == (var dir := DirectoryOf(data);
                    if name !in dir then Failure(NoSuchContact) else Success(category in dir[name].categories))
    {
      var c := GetContact(name);
      if c.Failure? {
        return Failure(c.error);
      }
      var i := FindCategory(c.value.categories, category);
      r := Success(i < |c.value.categories|);
    }

    // ---- modifiers ----

    method AddContact(name: string)
      requires Valid()
      modifies this
      ensures Valid() && Performs(old(data), Add(name), Pass, data)
    {
      ApplyValid(data, Add(name));
      data := data + [Contact(name, [], [])];
    }

    method RemoveContact(name: string)
      requires Valid()
      modifies this
      ensures Valid() && Performs(old(data), Remove(name), Pass, data)
    {
      ApplyValid(data, Remove(name));
      var i := FindContact(name);
      if i < |data| {
        data := data[..i] + data[i + 1..];
      }
    }

    method RemoveAllContacts()
      requires Valid()
      modifies this
      ensures Valid() && Performs(old(data), RemoveAll, Pass, data)
    {
      data := [];
    }

    method ChangeContactName(name: string, newName: string) returns (r: Outcome<Error>)
      requires Valid()
      modifies this
      ensures Valid() && Performs(old(data), Rename(name, newName), r, data)
    {
      ApplyValid(data, Rename(name, newName));
      var i := FindContact(name);
      if i == |data| {
        return Fail(NoSuchContact);
      }
      data := data[i := data[i].(name := newName)];
      r := Pass;
    }

    method SetContactWalletInfo(name: string, kind: string, key: string, address: string) returns (r: Outcome<Error>)
      requires Valid()
      modifies this
      ensures Valid() && Performs(old(data), Edit(name, SetAddress(kind, key, address)), r, data)
    {
      ApplyValid(data, Edit(name, SetAddress(kind, key, address)));
      var i := FindContact(name);
      if i == |data| {
        return Fail(NoSuchContact);
      }
      var wallets := data[i].wallets;
      var has := HasWalletInfo(name, kind);
      if !has.value {
        wallets := wallets + [WalletInfo(kind, map[])];
        IndexOfUnique(Kinds(wallets), kind, |data[i].wallets|);
      }
      var j := FindWallet(wallets, kind);
      wallets := wallets[j := WalletInfo(kind, wallets[j].addresses[key := address])];
      assert wallets == WithAddress(data[i].wallets, kind, key, address);
      data := data[i := data[i].(wallets := wallets)];
      r := Pass;
    }

    /** Needs no more of the book than that the kind occurs once in the contact. */
    method EraseWalletEntry(i: nat, kind: string)
      requires i < |data| && Distinct(Kinds(data[i].wallets)) && kind in Kinds(data[i].wallets)
      modifies this
      ensures data == old(data)[i := old(data[i]).(wallets := WithoutKind(old(data[i].wallets), kind))]
    {
      var slots := ShiftAndEraseOne(data[i].wallets, kind);
      DistinctOnce(Kinds(data[i].wallets), kind);
      var wallets := seq(|slots|, k requires 0 <= k < |slots| => slots[k].info);
      assert wallets == WithoutKind(data[i].wallets, kind);
      data := data[i := data[i].(wallets := wallets)];
    }

    /** The caller must know that the contact, if there is one, has the wallet kind. */
    method RemoveContactWalletInfo(name: string, kind: string) returns (r: Outcome<Error>)
      requires Valid()
      requires name in DirectoryOf(data) ==> kind in DirectoryOf(data)[name].wallets
      modifies this
      ensures Valid() && Performs(old(data), Edit(name, RemoveWallet(kind)), r, data)
    {
      ApplyValid(data, Edit(name, RemoveWallet(kind)));
      var i := FindContact(name);
      if i == |data| {
        return Fail(NoSuchContact);
      }
      EraseWalletEntry(i, kind);
      r := Pass;
    }

    /** Erases the key in place and, when the entry became empty, the entry as well. */
    method RemoveAddressAt(i: nat, j: nat, key: string)
      requires i < |data| && Distinct(Kinds(data[i].wallets))
      requires j < |data[i].wallets| && j == IndexOf(Kinds(data[i].wallets), data[i].wallets[j].kind)
      modifies this
      ensures data == old(data)[i := old(data[i]).(wallets :=
                        WithoutAddress(old(data[i].wallets), old(data[i].wallets[j].kind), key))]
    {
      var wallets, kind := data[i].wallets, data[i].wallets[j].kind;
      var rest := wallets[j].addresses - {key};
      SameWithoutEntry(wallets, j, rest);
      data := data[i := data[i].(wallets := wallets[j := WalletInfo(kind, rest)])];
      if rest == map[] {
        EraseWalletEntry(i, kind);
      }
    }

    /** Removes one address and, when it was the last one, the whole entry. */
    method RemoveContactWalletKey(name: string, kind: string, key: string) returns (r: Outcome<Error>)
      requires Valid()
      modifies this
      ensures Valid() && Performs(old(data), Edit(name, RemoveAddress(kind, key)), r, data)
    {
      ApplyValid(data, Edit(name, RemoveAddress(kind, key)));
      var i := FindContact(name);
      if i == |data| {
        return Fail(NoSuchContact);
      }
      var j := FindWallet(data[i].wallets, kind);
      if j == |data[i].wallets| {
        return Fail(NoSuchWallet);
      }
      RemoveAddressAt(i, j, key);
      r := Pass;
    }

    method RemoveEveryWalletInfo(name: string) returns (r: Outcome<Error>)
      requires Valid()
      modifies this
      ensures Valid() && Performs(old(data), Edit(name, RemoveEveryWallet), r, data)
    {
      var i := FindContact(name);
      if i == |data| {
        return Fail(NoSuchContact);
      }
      data := data[i := data[i].(wallets := [])];
      r := Pass;
    }

    /** Tells whether the category was new to the contact. */
    method AddContactCategory(name: string, category: string) returns (r: Result<bool, Error>)
      requires Valid()
      modifies this
      ensures Valid()
      ensures Performs(old(data), Edit(name, AddCategory(category)), if r.Success? then Pass else Fail(r.error), data)
      ensures r.Success? ==> (r.value <==> category !in DirectoryOf(old(data))[name].categories)
    {
      ApplyValid(data, Edit(name, AddCategory(category)));
      AddCategoryMeans(data, name, category);
      hide ValidBook;
      hide CardOf;
      hide Apply;
      var has := HasCategory(name, category);
      if has.Failure? {
        return Failure(has.error);
      }
      var i := FindContact(name);
      if has.value {
        return Success(false);
      }
      data := data[i := data[i].(categories := data[i].categories + [category])];
      r := Success(true);
    }

    method RemoveContactCategory(name: string, category: string) returns (r: Outcome<Error>)
      requires Valid()
      modifies this
      ensures Valid() && Performs(old(data), Edit(name, RemoveCategory(category)), r, data)
    {
      ApplyValid(data, Edit(name, RemoveCategory(category)));
      var i := FindContact(name);
      if i == |data| {
        return Fail(NoSuchContact);
      }
      var categories := data[i].categories;
      var j := FindCategory(categories, category);
      if j < |categories| {
        categories := categories[..j] + categories[j + 1..];
      }
      data := data[i := data[i].(categories := categories)];
      r := Pass;
    }

    method ResetContactCategories(name: string) returns (r: Outcome<Error>)
      requires Valid()
      modifies this
      ensures Valid() && Performs(old(data), Edit(name, ResetCategories), r, data)
    {
      var i := FindContact(name);
      if i == |data| {
        return Fail(NoSuchContact);
      }
      data := data[i := data[i].(categories := [])];
      r := Pass;
    }
  }
}
