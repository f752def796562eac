/**
 * The nested arrays of the address book refine nested maps as long as names stay unique;
 * with shared names, the contacts of each name form a queue of its own.
 */
module AddressBookRefinement {
  import opened Wrappers
  import opened Sequences
  import opened AddressBookModel

  /** What a contact means: a set of categories and, per wallet kind, a map from keys to addresses. */
  datatype Card = Card(categories: set<string>, wallets: map<string, map<string, string>>)

  type Directory = map<string, Card>

  ghost function WalletMap(wallets: seq<WalletInfo>): map<string, map<string, string>> {
    map kind | kind in Kinds(wallets) :: wallets[IndexOf(Kinds(wallets), kind)].addresses
  }

  ghost function CardOf(c: Contact): Card {
    Card((set category | category in c.categories), WalletMap(c.wallets))
  }

  /** The first bearer of each name, as a map. */
  ghost function DirectoryOf(book: seq<Contact>): Directory {
    map name | name in Names(book) :: CardOf(book[IndexOf(Names(book), name)])
  }

  // ---- the simple nested map ----

  ghost function CardChanged(card: Card, change: Change): Result<Card, Error> {
    var wallets := card.wallets;
    match change
    case SetAddress(kind, key, address) =>
      var before := if kind in wallets then wallets[kind] else map[];
      Success(card.(wallets := wallets[kind := before[key := address]]))
    case RemoveWallet(kind) =>
      if kind !in wallets then Failure(EraseAtEnd) else Success(card.(wallets := wallets - {kind}))
    case RemoveAddress(kind, key) =>
      if kind !in wallets then Failure(NoSuchWallet)
      else
        var rest := wallets[kind] - {key};
        Success(card.(wallets := if rest == map[] then wallets - {kind} else wallets[kind := rest]))
    case RemoveEveryWallet => Success(card.(wallets := map[]))
    case AddCategory(category) => Success(card.(categories := card.categories + {category}))
    case RemoveCategory(category) => Success(card.(categories := card.categories - {category}))
    case ResetCategories => Success(card.(categories := {}))
  }

  ghost function DirectoryApply(dir: Directory, op: Op): Result<Directory, Error> {
    match op
    case Add(name) => Success(dir[name := Card({}, map[])])
    case Remove(name) => Success(dir - {name})
    case RemoveAll => Success(map[])
    case Rename(name, newName) =>
      if name !in dir then Failure(NoSuchContact) else Success((dir - {name})[newName := dir[name]])
    case Edit(name, change) =>
      if name !in dir then Failure(NoSuchContact)
      else match CardChanged(dir[name], change)
        case Success(card) => Success(dir[name := card])
        case Failure(e) => Failure(e)
  }

  ghost function DirectoryRun(dir: Directory, ops: seq<Op>): Result<Directory, Error>
    decreases |ops|
  {
    if ops == [] then Success(dir)
    else match DirectoryApply(dir, ops[0])
      case Success(next) => DirectoryRun(next, ops[1..])
      case Failure(EraseAtEnd) => Failure(EraseAtEnd)
      case Failure(_) => DirectoryRun(dir, ops[1..])
  }

  /** Only fresh names are introduced. */
  ghost predicate Fresh(dir: Directory, op: Op) {
    match op
    case Add(name) => name !in dir
    case Rename(name, newName) => newName == name || newName !in dir
    case _ => true
  }

  ghost predicate FreshRun(dir: Directory, ops: seq<Op>)
    decreases |ops|
  {
    ops == [] ||
    (Fresh(dir, ops[0]) &&
     match DirectoryApply(dir, ops[0])
     case Success(next) => FreshRun(next, ops[1..])
     case Failure(_) => FreshRun(dir, ops[1..]))
  }

  ghost function CardMeaning(r: Result<Contact, Error>): Result<Card, Error> {
    match r
    case Success(c) => Success(CardOf(c))
    case Failure(e) => Failure(e)
  }

  ghost function Meaning(r: Result<seq<Contact>, Error>): Result<Directory, Error> {
    match r
    case Success(book) => Success(DirectoryOf(book))
    case Failure(e) => Failure(e)
  }

  // ---- the contact refines the card ----

  lemma WalletMapAt(wallets: seq<WalletInfo>, i: nat)
    requires Distinct(Kinds(wallets)) && i < |wallets|
    ensures wallets[i].kind in WalletMap(wallets)
    ensures WalletMap(wallets)[wallets[i].kind] == wallets[i].addresses
  {
    IndexOfDistinct(Kinds(wallets), i);
    assert Kinds(wallets)[i] == wallets[i].kind;
  }

  /** A map that agrees with every entry and has no other key is the wallet map. */
  lemma WalletMapIs(wallets: seq<WalletInfo>, m: map<string, map<string, string>>)
    requires Distinct(Kinds(wallets))
    requires forall i :: 0 <= i < |wallets| ==> wallets[i].kind in m && m[wallets[i].kind] == wallets[i].addresses
    requires forall kind :: kind in m ==> kind in Kinds(wallets)
    ensures WalletMap(wallets) == m
  {
    forall kind | kind in Kinds(wallets) ensures kind in m && WalletMap(wallets)[kind] == m[kind] {
      var i := IndexOf(Kinds(wallets), kind);
      assert wallets[i].kind == kind;
    }
  }

  lemma ErasedWalletMap(wallets: seq<WalletInfo>, kind: string)
    requires Distinct(Kinds(wallets)) && kind in Kinds(wallets)
    ensures WalletMap(WithoutKind(wallets, kind)) == WalletMap(wallets) - {kind}
  {
    hide WithoutKind;
    var i := IndexOf(Kinds(wallets), kind);
    WithoutKindIsErase(wallets, i);
    EraseKinds(wallets, i);
    EraseDistinct(Kinds(wallets), i);
    var rest := Erase(wallets, i);
    forall k | 0 <= k < |rest|
      ensures rest[k].kind in WalletMap(wallets) - {kind}
      ensures (WalletMap(wallets) - {kind})[rest[k].kind] == rest[k].addresses
    {
      assert Kinds(rest)[k] == rest[k].kind;
      WalletMapAt(wallets, if k < i then k else k + 1);
    }
    WalletMapIs(rest, WalletMap(wallets) - {kind});
  }

  lemma UpdatedWalletMap(wallets: seq<WalletInfo>, i: nat, addresses: map<string, string>)
    requires Distinct(Kinds(wallets)) && i < |wallets|
    ensures WalletMap(wallets[i := WalletInfo(wallets[i].kind, addresses)])
         == WalletMap(wallets)[wallets[i].kind := addresses]
  {
    var after := wallets[i := WalletInfo(wallets[i].kind, addresses)];
    assert Kinds(after) == Kinds(wallets);
    forall k | 0 <= k < |after|
      ensures after[k].kind in WalletMap(wallets)
      ensures WalletMap(wallets)[wallets[i].kind := addresses][after[k].kind] == after[k].addresses
    {
      WalletMapAt(wallets, k);
      assert Kinds(wallets)[k] == wallets[k].kind && Kinds(wallets)[i] == wallets[i].kind;
    }
    WalletMapIs(after, WalletMap(wallets)[wallets[i].kind := addresses]);
  }

  lemma AppendedWalletMap(wallets: seq<WalletInfo>, entry: WalletInfo)
    requires Distinct(Kinds(wallets)) && entry.kind !in Kinds(wallets)
    ensures WalletMap(wallets + [entry]) == WalletMap(wallets)[entry.kind := entry.addresses]
  {
    var after := wallets + [entry];
    assert Kinds(after) == Kinds(wallets) + [entry.kind];
    forall k | 0 <= k < |wallets|
      ensures after[k].kind in WalletMap(wallets)
      ensures WalletMap(wallets)[after[k].kind] == after[k].addresses && after[k].kind != entry.kind
    {
      WalletMapAt(wallets, k);
      assert Kinds(wallets)[k] == wallets[k].kind;
    }
    WalletMapIs(after, WalletMap(wallets)[entry.kind := entry.addresses]);
  }

  /** Every modifier of a contact performs the matching update of the card, or fails for the same reason. */
  lemma ChangeRefines(c: Contact, change: Change)
    requires ValidContact(c)
    ensures CardChanged(CardOf(c), change) == CardMeaning(Changed(c, change))
  {
    var kinds := Kinds(c.wallets);
    match change
    case SetAddress(kind, key, address) =>
      var i := IndexOf(kinds, kind);
      if i < |c.wallets| {
        UpdatedWalletMap(c.wallets, i, c.wallets[i].addresses[key := address]);
      } else {
        AppendedWalletMap(c.wallets, WalletInfo(kind, map[key := address]));
      }
    case RemoveWallet(kind) =>
      if kind in kinds { ErasedWalletMap(c.wallets, kind); }
    case RemoveAddress(kind, key) =>
      if kind in kinds {
        var i := IndexOf(kinds, kind);
        ErasedWalletMap(c.wallets, kind);
        UpdatedWalletMap(c.wallets, i, c.wallets[i].addresses - {key});
      }
    case RemoveEveryWallet =>
      assert WalletMap([]) == map[];
    case AddCategory(category) =>
      assert CardOf(Changed(c, change).value).categories == CardOf(c).categories + {category};
    case RemoveCategory(category) =>
      var i := IndexOf(c.categories, category);
      if i < |c.categories| { EraseDistinct(c.categories, i); }
      assert CardOf(Changed(c, change).value).categories == CardOf(c).categories - {category};
    case ResetCategories =>
      assert CardOf(Changed(c, change).value).categories == {};
  }

  // ---- the book refines the directory ----

  lemma DirectoryAt(book: seq<Contact>, i: nat)
    requires Distinct(Names(book)) && i < |book|
    ensures book[i].name in DirectoryOf(book)
    ensures DirectoryOf(book)[book[i].name] == CardOf(book[i])
  {
    IndexOfDistinct(Names(book), i);
    assert Names(book)[i] == book[i].name;
  }

  lemma DirectoryIs(book: seq<Contact>, dir: Directory)
    requires Distinct(Names(book))
    requires forall i :: 0 <= i < |book| ==> book[i].name in dir && dir[book[i].name] == CardOf(book[i])
    requires forall name :: name in dir ==> name in Names(book)
    ensures DirectoryOf(book) == dir
  {
    forall name | name in Names(book) ensures name in dir && DirectoryOf(book)[name] == dir[name] {
      var i := IndexOf(Names(book), name);
      assert book[i].name == name;
    }
  }

  lemma AddRefines(book: seq<Contact>, name: string)
    requires Distinct(Names(book)) && name !in Names(book)
    ensures Distinct(Names(book + [Blank(name)]))
    ensures DirectoryOf(book + [Blank(name)]) == DirectoryOf(book)[name := Card({}, map[])]
  {
    var after := book + [Blank(name)];
    assert Names(after) == Names(book) + [name];
    assert CardOf(Blank(name)) == Card({}, map[]);
    forall k | 0 <= k < |book|
      ensures after[k].name in DirectoryOf(book)
      ensures DirectoryOf(book)[after[k].name] == CardOf(after[k]) && after[k].name != name
    {
      DirectoryAt(book, k);
      assert Names(book)[k] == book[k].name;
    }
    DirectoryIs(after, DirectoryOf(book)[name := Card({}, map[])]);
  }

  lemma RemoveRefines(book: seq<Contact>, i: nat)
    requires Distinct(Names(book)) && i < |book|
    ensures Distinct(Names(Erase(book, i)))
    ensures DirectoryOf(Erase(book, i)) == DirectoryOf(book) - {book[i].name}
  {
    var after := Erase(book, i);
    assert Names(after) == Erase(Names(book), i);
    EraseDistinct(Names(book), i);
    forall k | 0 <= k < |after|
      ensures after[k].name in DirectoryOf(book) - {book[i].name}
      ensures (DirectoryOf(book) - {book[i].name})[after[k].name] == CardOf(after[k])
    {
      assert Names(after)[k] == after[k].name;
      DirectoryAt(book, if k < i then k else k + 1);
    }
    DirectoryIs(after, DirectoryOf(book) - {book[i].name});
  }

  /** Replacing one contact, possibly under a fresh name. */
  lemma ReplaceRefines(book: seq<Contact>, i: nat, c: Contact)
    requires Distinct(Names(book)) && i < |book|
    requires c.name == book[i].name || c.name !in Names(book)
    ensures Distinct(Names(book[i := c]))
    ensures DirectoryOf(book[i := c]) == (DirectoryOf(book) - {book[i].name})[c.name := CardOf(c)]
  {
    var after := book[i := c];
    var dir := (DirectoryOf(book) - {book[i].name})[c.name := CardOf(c)];
    assert Names(after) == Names(book)[i := c.name];
    assert forall k :: 0 <= k < |book| ==> Names(book)[k] == book[k].name;
    forall k | 0 <= k < |after|
      ensures after[k].name in dir && dir[after[k].name] == CardOf(after[k])
    {
      DirectoryAt(book, k);
    }
    forall name | name in dir ensures name in Names(after) {
      if name == c.name {
        assert Names(after)[i] == name;
      } else {
        var k := IndexOf(Names(book), name);
        assert Names(after)[k] == name;
      }
    }
    DirectoryIs(after, dir);
  }

  lemma SameNameRefines(book: seq<Contact>, i: nat, c: Contact)
    requires Distinct(Names(book)) && i < |book| && c.name == book[i].name
    ensures Distinct(Names(book[i := c]))
    ensures DirectoryOf(book[i := c]) == DirectoryOf(book)[c.name := CardOf(c)]
  {
    ReplaceRefines(book, i, c);
    assert (DirectoryOf(book) - {c.name})[c.name := CardOf(c)] == DirectoryOf(book)[c.name := CardOf(c)];
  }

  /**
   * Each modifier performs the matching map update or fails for the same reason, and keeps
   * names unique, provided it introduces only a fresh name.
   */
  lemma StepRefines(book: seq<Contact>, op: Op)
    requires ValidBook(book) && Distinct(Names(book)) && Fresh(DirectoryOf(book), op)
    ensures DirectoryApply(DirectoryOf(book), op) == Meaning(Apply(book, op))
    ensures Apply(book, op).Success? ==> Distinct(Names(Apply(book, op).value))
  {
    var dir := DirectoryOf(book);
    match op
    case Add(name) => AddRefines(book, name);
    case Remove(name) =>
      var i := IndexOf(Names(book), name);
      if i < |book| { RemoveRefines(book, i); } else { assert dir - {name} == dir; }
    case RemoveAll => assert DirectoryOf([]) == map[];
    case Rename(name, newName) =>
      var i := IndexOf(Names(book), name);
      if i < |book| {
        DirectoryAt(book, i);
        ReplaceRefines(book, i, book[i].(name := newName));
        assert CardOf(book[i].(name := newName)) == CardOf(book[i]);
      }
    case Edit(name, change) =>
      var i := IndexOf(Names(book), name);
      if i < |book| {
        DirectoryAt(book, i);
        ChangeRefines(book[i], change);
        ChangedValid(book[i], change);
        if Changed(book[i], change).Success? { SameNameRefines(book, i, Changed(book[i], change).value); }
      }
  }

  /** The nested arrays refine the nested maps over every run that introduces only fresh names. */
  lemma {:induction false} RunRefines(book: seq<Contact>, ops: seq<Op>)
    requires ValidBook(book) && Distinct(Names(book)) && FreshRun(DirectoryOf(book), ops)
    ensures DirectoryRun(DirectoryOf(book), ops) == Meaning(Run(book, ops))
    ensures Run(book, ops).Success? ==> Distinct(Names(Run(book, ops).value))
    decreases |ops|
  {
    if ops != [] {
      StepRefines(book, ops[0]);
      ApplyValid(book, ops[0]);
      match Apply(book, ops[0])
      case Success(next) => RunRefines(next, ops[1..]);
      case Failure(EraseAtEnd) =>
      case Failure(_) => RunRefines(book, ops[1..]);
    }
  }

  /** In particular from the empty book of a new manager. */
  lemma RunFromEmptyRefines(ops: seq<Op>)
    requires FreshRun(map[], ops)
    ensures DirectoryRun(map[], ops) == Meaning(Run([], ops))
  {
    assert DirectoryOf([]) == map[];
    RunRefines([], ops);
  }

  // ---- what a modifier of one contact leaves alone ----

  /** The wallet kind that a modifier is about, if it is about one. */
  function KindOf(change: Change): Option<string> {
    match change
    case SetAddress(kind, _, _) => Some(kind)
    case RemoveWallet(kind) => Some(kind)
    case RemoveAddress(kind, _) => Some(kind)
    case _ => None
  }

  lemma {:induction false} WithoutKindTwice(wallets: seq<WalletInfo>, kind: string)
    ensures WithoutKind(WithoutKind(wallets, kind), kind) == WithoutKind(wallets, kind)
  {
    if wallets != [] {
      var front, last := wallets[..|wallets| - 1], wallets[|wallets| - 1];
      WithoutKindTwice(front, kind);
      if last.kind != kind {
        var rest := WithoutKind(front, kind);
        assert WithoutKind(wallets, kind) == rest + [last];
        assert (rest + [last])[..|rest|] == rest;
      }
    }
  }

  lemma AppendedWithoutKind(wallets: seq<WalletInfo>, entry: WalletInfo)
    ensures WithoutKind(wallets + [entry], entry.kind) == WithoutKind(wallets, entry.kind)
  {
    assert (wallets + [entry])[..|wallets|] == wallets;
  }

  /** A modifier about one wallet kind leaves the entries of all others, and their order, as they were. */
  lemma OtherKindsUntouched(c: Contact, change: Change)
    requires ValidContact(c) && KindOf(change).Some? && Changed(c, change).Success?
    ensures WithoutKind(Changed(c, change).value.wallets, KindOf(change).value)
         == WithoutKind(c.wallets, KindOf(change).value)
    ensures Changed(c, change).value.categories == c.categories
  {
    var kind := KindOf(change).value;
    var i := IndexOf(Kinds(c.wallets), kind);
    WithoutKindTwice(c.wallets, kind);
    if change.SetAddress? {
      if i < |c.wallets| {
        SameWithoutEntry(c.wallets, i, c.wallets[i].addresses[change.key := change.address]);
      } else {
        AppendedWithoutKind(c.wallets, WalletInfo(kind, map[change.key := change.address]));
      }
    } else if change.RemoveAddress? {
      SameWithoutEntry(c.wallets, i, c.wallets[i].addresses - {change.key});
    }
  }

  /** The other names, in order. */
  function Others(names: seq<string>, name: string): seq<string> {
    if names == [] then []
    else
      var rest := Others(names[..|names| - 1], name);
      var last := names[|names| - 1];
      if last == name then rest else rest + [last]
  }

  lemma {:induction false} OthersOfAbsent(categories: seq<string>, category: string)
    requires forall i :: 0 <= i < |categories| ==> categories[i] != category
    ensures Others(categories, category) == categories
  {
    if categories != [] { OthersOfAbsent(categories[..|categories| - 1], category); }
  }

  lemma {:induction false} OthersIsErase(categories: seq<string>, i: nat)
    requires Distinct(categories) && i < |categories|
    ensures Others(categories, categories[i]) == Erase(categories, i)
  {
    var front := categories[..|categories| - 1];
    if i == |categories| - 1 {
      OthersOfAbsent(front, categories[i]);
      assert Erase(categories, i) == front;
    } else {
      OthersIsErase(front, i);
      assert Erase(categories, i) == Erase(front, i) + [categories[|categories| - 1]];
    }
  }

  /** Taking a category out leaves exactly the others, in order. */
  lemma CategoryRemovedInOrder(c: Contact, category: string)
    requires ValidContact(c)
    ensures Changed(c, RemoveCategory(category))
         == Success(c.(categories := Others(c.categories, category)))
  {
    var i := IndexOf(c.categories, category);
    if i < |c.categories| { OthersIsErase(c.categories, i); } else { OthersOfAbsent(c.categories, category); }
  }

  /** The kinds of a contact's wallet entries, in order, after a modifier that does not throw. */
  ghost function KindsAfter(c: Contact, change: Change): seq<string> {
    var kinds := Kinds(c.wallets);
    match change
    case SetAddress(kind, _, _) => if kind in kinds then kinds else kinds + [kind]
    case RemoveWallet(kind) => Others(kinds, kind)
    case RemoveAddress(kind, key) =>
      if kind in kinds && WalletMap(c.wallets)[kind].Keys <= {key} then Others(kinds, kind) else kinds
    case RemoveEveryWallet => []
    case _ => kinds
  }

  /** And its categories. */
  ghost function CategoriesAfter(c: Contact, change: Change): seq<string> {
    match change
    case AddCategory(category) => if category in c.categories then c.categories else c.categories + [category]
    case RemoveCategory(category) => Others(c.categories, category)
    case ResetCategories => []
    case _ => c.categories
  }

  lemma WithoutKindKinds(wallets: seq<WalletInfo>, kind: string)
    requires Distinct(Kinds(wallets)) && kind in Kinds(wallets)
    ensures Kinds(WithoutKind(wallets, kind)) == Others(Kinds(wallets), kind)
  {
    var i := IndexOf(Kinds(wallets), kind);
    WithoutKindIsErase(wallets, i);
    OthersIsErase(Kinds(wallets), i);
    EraseKinds(wallets, i);
  }

  lemma LastKey(addresses: map<string, string>, key: string)
    ensures addresses - {key} == map[] <==> addresses.Keys <= {key}
  {
    if addresses.Keys <= {key} {
      assert forall k :: k !in addresses - {key};
    } else {
      var k :| k in addresses && k != key;
      assert k in addresses - {key};
    }
  }

  lemma KindsAfterRemoval(c: Contact, kind: string, key: string)
    requires ValidContact(c) && kind in Kinds(c.wallets)
    ensures Kinds(WithoutAddress(c.wallets, kind, key)) == KindsAfter(c, RemoveAddress(kind, key))
  {
    hide WithoutKind;
    var i := IndexOf(Kinds(c.wallets), kind);
    var rest := c.wallets[i].addresses - {key};
    WithoutKindKinds(c.wallets, kind);
    LastKey(c.wallets[i].addresses, key);
    assert Kinds(c.wallets[i := WalletInfo(kind, rest)]) == Kinds(c.wallets);
  }

  /** New entries and categories come last, removed ones leave the others in order, and changed ones stay in place. */
  lemma EntriesInOrder(c: Contact, change: Change)
    requires ValidContact(c) && Changed(c, change).Success?
    ensures Kinds(Changed(c, change).value.wallets) == KindsAfter(c, change)
    ensures Changed(c, change).value.categories == CategoriesAfter(c, change)
  {
    hide WithoutKind;
    match change {
      case SetAddress(kind, key, address) =>
        assert Kinds(WithAddress(c.wallets, kind, key, address)) == KindsAfter(c, change);
      case RemoveWallet(kind) => WithoutKindKinds(c.wallets, kind);
      case RemoveAddress(kind, key) => KindsAfterRemoval(c, kind, key);
      case RemoveEveryWallet => assert Kinds([]) == [];
      case AddCategory(_) =>
      case RemoveCategory(category) => CategoryRemovedInOrder(c, category);
      case ResetCategories =>
    }
  }

  /** Kinds in order, what they mean, and the categories in order are all there is to a contact. */
  lemma ContactIs(c: Contact, d: Contact)
    requires ValidContact(c) && ValidContact(d) && c.name == d.name && c.categories == d.categories
    requires Kinds(c.wallets) == Kinds(d.wallets) && WalletMap(c.wallets) == WalletMap(d.wallets)
    ensures c == d
  {
    forall i | 0 <= i < |c.wallets| ensures c.wallets[i] == d.wallets[i] {
      assert Kinds(c.wallets)[i] == c.wallets[i].kind && Kinds(d.wallets)[i] == d.wallets[i].kind;
      WalletMapAt(c.wallets, i);
      WalletMapAt(d.wallets, i);
    }
  }

  // ---- contacts sharing a name ----

  /** The contacts of a name, oldest position first. */
  function Bearers(book: seq<Contact>, name: string): (queue: seq<Contact>)
    ensures |queue| <= |book|
  {
    if book == [] then [] else Bearer(book[0], name) + Bearers(book[1..], name)
  }

  function Bearer(c: Contact, name: string): seq<Contact> {
    if c.name == name then [c] else []
  }

  lemma {:induction false} BearersConcat(a: seq<Contact>, b: seq<Contact>, name: string)
    ensures Bearers(a + b, name) == Bearers(a, name) + Bearers(b, name)
  {
    if a == [] {
      assert a + b == b;
    } else {
      var rest := Bearers(a[1..], name);
      BearersConcat(a[1..], b, name);
      assert (a + b)[1..] == a[1..] + b && (a + b)[0] == a[0];
      assert Bearers(a + b, name) == Bearer(a[0], name) + (rest + Bearers(b, name));
      assert Bearer(a[0], name) + (rest + Bearers(b, name)) == (Bearer(a[0], name) + rest) + Bearers(b, name);
    }
  }

  lemma {:induction false} NoBearers(book: seq<Contact>, name: string)
    requires name !in Names(book)
    ensures Bearers(book, name) == []
  {
    if book != [] {
      assert Names(book)[0] == book[0].name;
      assert forall i :: 0 <= i < |book| - 1 ==> Names(book[1..])[i] == Names(book)[i + 1];
      NoBearers(book[1..], name);
    }
  }

  /** The bearers of any name around position `i`. */
  lemma BearersAround(book: seq<Contact>, i: nat, name: string)
    requires i < |book|
    ensures Bearers(book, name) == Bearers(book[..i], name) + (Bearer(book[i], name) + Bearers(book[i + 1..], name))
  {
    assert book == book[..i] + book[i..];
    BearersConcat(book[..i], book[i..], name);
    assert book[i..][1..] == book[i + 1..];
  }

  /** What erasing or replacing position `i` does to the bearers of any name. */
  lemma BearersAfter(book: seq<Contact>, i: nat, c: Contact, name: string)
    returns (early: seq<Contact>, later: seq<Contact>)
    requires i < |book|
    ensures early == Bearers(book[..i], name)
    ensures Bearers(book, name) == early + (Bearer(book[i], name) + later)
    ensures Bearers(Erase(book, i), name) == early + later
    ensures Bearers(book[i := c], name) == early + (Bearer(c, name) + later)
  {
    early, later := Bearers(book[..i], name), Bearers(book[i + 1..], name);
    var after := book[i := c];
    BearersAround(book, i, name);
    BearersAround(after, i, name);
    assert after[..i] == book[..i] && after[i + 1..] == book[i + 1..];
    BearersConcat(book[..i], book[i + 1..], name);
  }

  lemma NoBearersBefore(book: seq<Contact>, name: string)
    ensures Bearers(book[..IndexOf(Names(book), name)], name) == []
  {
    var i := IndexOf(Names(book), name);
    assert forall k :: 0 <= k < i ==> Names(book[..i])[k] == Names(book)[k];
    NoBearers(book[..i], name);
  }

  /** Lookup by name sees the head of the name's queue. */
  lemma FirstBearer(book: seq<Contact>, name: string)
    ensures var i := IndexOf(Names(book), name);
            if i == |book| then Bearers(book, name) == []
            else Bearers(book, name) == [book[i]] + Bearers(book[i + 1..], name)
  {
    var i := IndexOf(Names(book), name);
    NoBearersBefore(book, name);
    if i < |book| {
      BearersAround(book, i, name);
    } else {
      assert book[..i] == book;
    }
  }

  /** The modifier gives the name to a contact or takes it from one by renaming. */
  predicate Renames(op: Op, name: string) {
    op.Rename? && (op.name == name || op.newName == name)
  }

  /** The queue of one name as a machine of its own; modifiers of other names leave it alone. */
  function QueueApply(queue: seq<Contact>, name: string, op: Op): Result<seq<Contact>, Error>
    requires !Renames(op, name)
  {
    match op
    case Add(n) => Success(if n == name then queue + [Blank(name)] else queue)
    case Remove(n) => Success(if n == name && queue != [] then queue[1..] else queue)
    case RemoveAll => Success([])
    case Rename(_, _) => Success(queue)
    case Edit(n, change) =>
      if n != name then Success(queue)
      else if queue == [] then Failure(NoSuchContact)
      else match Changed(queue[0], change)
        case Success(c) => Success([c] + queue[1..])
        case Failure(e) => Failure(e)
  }

  function QueueRun(queue: seq<Contact>, name: string, ops: seq<Op>): seq<Contact>
    requires forall op :: op in ops ==> !Renames(op, name)
    decreases |ops|
  {
    if ops == [] then queue
    else match QueueApply(queue, name, ops[0])
      case Success(next) => QueueRun(next, name, ops[1..])
      case Failure(_) => QueueRun(queue, name, ops[1..])
  }

  lemma AppendedBearers(book: seq<Contact>, c: Contact, name: string)
    ensures Bearers(book + [c], name) == if c.name == name then Bearers(book, name) + [c] else Bearers(book, name)
  {
    BearersConcat(book, [c], name);
    assert [c][1..] == [];
    assert Bearers([c], name) == Bearer(c, name) + [] == Bearer(c, name);
    assert Bearers(book, name) + [] == Bearers(book, name);
  }

  lemma RemovePops(book: seq<Contact>, n: string, name: string)
    ensures Bearers(Apply(book, Remove(n)).value, name)
         == if n == name && Bearers(book, name) != [] then Bearers(book, name)[1..] else Bearers(book, name)
  {
    var i := IndexOf(Names(book), n);
    FirstBearer(book, n);
    if i < |book| {
      NoBearersBefore(book, n);
      var early, later := BearersAfter(book, i, book[i], name);
      if n == name {
        assert early == [] && [] + later == later && [] + ([book[i]] + later) == [book[i]] + later;
      } else {
        assert [] + later == later;
      }
    }
  }

  lemma EditChangesHead(book: seq<Contact>, n: string, c: Contact, name: string)
    requires n in Names(book) && c.name == n
    ensures n != name ==> Bearers(book[IndexOf(Names(book), n) := c], name) == Bearers(book, name)
    ensures Bearers(book, n) != []
    ensures Bearers(book[IndexOf(Names(book), n) := c], n) == [c] + Bearers(book, n)[1..]
  {
    var i := IndexOf(Names(book), n);
    NoBearersBefore(book, n);
    var early, later := BearersAfter(book, i, c, n);
    assert early == [] && [] + ([c] + later) == [c] + later && [] + ([book[i]] + later) == [book[i]] + later;
    if n != name {
      var _, _ := BearersAfter(book, i, c, name);
    }
  }

  /**
   * Under every modifier but a renaming from or to it, the contacts of a name evolve as an independent
   * first-in first-out queue whose head alone is visible to lookups, edits and removal.
   */
  lemma StepIsQueueStep(book: seq<Contact>, name: string, op: Op)
    requires ValidBook(book) && !Renames(op, name)
    ensures Apply(book, op).Success? ==>
              QueueApply(Bearers(book, name), name, op) == Success(Bearers(Apply(book, op).value, name))
    ensures Apply(book, op).Failure? && !op.Rename? ==>
              op.Edit? && QueueApply(Bearers(book, op.name), op.name, op) == Failure(Apply(book, op).error)
  {
    match op
    case Add(n) => AppendedBearers(book, Blank(n), name);
    case RemoveAll =>
    case Remove(n) => RemovePops(book, n, name);
    case Rename(n, newName) =>
      var i := IndexOf(Names(book), n);
      if i < |book| {
        var early, later := BearersAfter(book, i, book[i].(name := newName), name);
        assert [] + later == later;
      }
    case Edit(n, change) =>
      var i := IndexOf(Names(book), n);
      FirstBearer(book, n);
      if i < |book| {
        ChangedValid(book[i], change);
        if Changed(book[i], change).Success? {
          EditChangesHead(book, n, Changed(book[i], change).value, name);
        }
      }
  }

  /** Over whole runs, unless renamed from or to, the contacts of a name depend on the modifiers naming it alone. */
  lemma {:induction false} RunIsQueueRun(book: seq<Contact>, name: string, ops: seq<Op>)
    requires ValidBook(book) && forall op :: op in ops ==> !Renames(op, name)
    requires Run(book, ops).Success?
    ensures Bearers(Run(book, ops).value, name) == QueueRun(Bearers(book, name), name, ops)
    decreases |ops|
  {
    if ops != [] {
      var op := ops[0];
      StepIsQueueStep(book, name, op);
      ApplyValid(book, op);
      match Apply(book, op)
      case Success(next) => RunIsQueueRun(next, name, ops[1..]);
      case Failure(_) => RunIsQueueRun(book, name, ops[1..]);
    }
  }

  /** Renaming takes the oldest bearer out of the queue of its old name... */
  lemma RenamePops(book: seq<Contact>, i: nat, newName: string, after: seq<Contact>)
    requires i < |book| && i == IndexOf(Names(book), book[i].name) && newName != book[i].name
    requires Apply(book, Rename(book[i].name, newName)) == Success(after)
    ensures Bearers(book, book[i].name) == [book[i]] + Bearers(after, book[i].name)
  {
    NoBearersBefore(book, book[i].name);
    var early, later := BearersAfter(book, i, book[i].(name := newName), book[i].name);
    assert early == [] && [] + later == later;
    assert [] + ([book[i]] + later) == [book[i]] + later;
  }

  /**
   * ...and into the queue of its new name, behind exactly the contacts of that name that stand
   * before it in the book; the queues of all other names stay as they are.
   */
  lemma RenameInserts(book: seq<Contact>, i: nat, newName: string, name: string, after: seq<Contact>)
    returns (early: seq<Contact>, later: seq<Contact>)
    requires i < |book| && i == IndexOf(Names(book), book[i].name) && name != book[i].name
    requires Apply(book, Rename(book[i].name, newName)) == Success(after)
    ensures early == Bearers(book[..i], name)
    ensures Bearers(book, name) == early + later
    ensures Bearers(after, name) == early + (Bearer(book[i].(name := newName), name) + later)
  {
    early, later := BearersAfter(book, i, book[i].(name := newName), name);
    assert Bearer(book[i], name) + later == later;
  }

  // ---- undo ----

  lemma SetThenRemoveNewEntry(wallets: seq<WalletInfo>, kind: string, key: string, address: string)
    requires kind !in Kinds(wallets)
    ensures kind in Kinds(WithAddress(wallets, kind, key, address))
    ensures WithoutAddress(WithAddress(wallets, kind, key, address), kind, key) == wallets
  {
    var after := wallets + [WalletInfo(kind, map[key := address])];
    assert after == WithAddress(wallets, kind, key, address);
    assert Kinds(after) == Kinds(wallets) + [kind];
    IndexOfUnique(Kinds(after), kind, |wallets|);
    assert map[key := address] - {key} == map[];
    assert after[..|wallets|] == wallets;
    forall k | 0 <= k < |wallets| ensures wallets[k].kind != kind { assert Kinds(wallets)[k] in Kinds(wallets); }
    WithoutAbsentKind(wallets, kind);
  }

  lemma SetThenRemoveOldEntry(wallets: seq<WalletInfo>, kind: string, key: string, address: string)
    requires kind in Kinds(wallets)
    requires key !in wallets[IndexOf(Kinds(wallets), kind)].addresses
    requires wallets[IndexOf(Kinds(wallets), kind)].addresses != map[]
    ensures kind in Kinds(WithAddress(wallets, kind, key, address))
    ensures WithoutAddress(WithAddress(wallets, kind, key, address), kind, key) == wallets
  {
    hide WithoutKind;
    var j := IndexOf(Kinds(wallets), kind);
    var after := wallets[j := WalletInfo(kind, wallets[j].addresses[key := address])];
    assert after == WithAddress(wallets, kind, key, address);
    assert wallets[j].kind == Kinds(wallets)[j];
    assert Kinds(after) == Kinds(wallets);
    assert after[j].addresses - {key} == wallets[j].addresses;
    assert after[j := wallets[j]] == wallets;
  }

  lemma SetThenRemoveEntry(wallets: seq<WalletInfo>, kind: string, key: string, address: string)
    requires forall i :: 0 <= i < |wallets| ==> wallets[i].addresses != map[]
    requires kind in Kinds(wallets) ==> key !in wallets[IndexOf(Kinds(wallets), kind)].addresses
    ensures kind in Kinds(WithAddress(wallets, kind, key, address))
    ensures WithoutAddress(WithAddress(wallets, kind, key, address), kind, key) == wallets
  {
    if kind in Kinds(wallets) {
      SetThenRemoveOldEntry(wallets, kind, key, address);
    } else {
      SetThenRemoveNewEntry(wallets, kind, key, address);
    }
  }

  /** Setting an absent key and removing it again restores the arrays, whether or not the entry existed. */
  lemma SetThenRemoveAddress(book: seq<Contact>, name: string, kind: string, key: string, address: string)
    requires ValidBook(book) && name in Names(book)
    requires var wallets := book[IndexOf(Names(book), name)].wallets;
             kind in Kinds(wallets) ==> key !in wallets[IndexOf(Kinds(wallets), kind)].addresses
    ensures Run(book, [Edit(name, SetAddress(kind, key, address)), Edit(name, RemoveAddress(kind, key))])
         == Success(book)
  {
    SetThenRemoveEntry(book[IndexOf(Names(book), name)].wallets, kind, key, address);
    TwoEdits(book, name, SetAddress(kind, key, address), RemoveAddress(kind, key));
  }

  lemma TwoSteps(book: seq<Contact>, first: Op, second: Op)
    requires Apply(book, first).Success?
    ensures Run(book, [first, second]) == Run(Apply(book, first).value, [second])
  {
    assert [first, second][1..] == [second];
  }

  lemma OneStep(book: seq<Contact>, op: Op)
    requires Apply(book, op).Success?
    ensures Run(book, [op]) == Apply(book, op)
  {
    assert [op][1..] == [];
    assert Run(Apply(book, op).value, []) == Apply(book, op);
  }

  /** Two modifiers of one contact in a row that cancel out restore the book. */
  lemma TwoEdits(book: seq<Contact>, name: string, first: Change, second: Change)
    requires ValidBook(book) && name in Names(book)
    requires var c := book[IndexOf(Names(book), name)];
             Changed(c, first).Success? && Changed(Changed(c, first).value, second) == Success(c)
    ensures Run(book, [Edit(name, first), Edit(name, second)]) == Success(book)
  {
    var i := IndexOf(Names(book), name);
    var c := Changed(book[i], first).value;
    ChangedValid(book[i], first);
    assert Names(book[i := c]) == Names(book);
    TwoSteps(book, Edit(name, first), Edit(name, second));
    OneStep(book[i := c], Edit(name, second));
    assert book[i := c][i := book[i]] == book;
  }

  /** A category that was really added is taken away again by removing it. */
  lemma AddThenRemoveCategory(book: seq<Contact>, name: string, category: string)
    requires ValidBook(book) && name in Names(book)
    requires category !in book[IndexOf(Names(book), name)].categories
    ensures Run(book, [Edit(name, AddCategory(category)), Edit(name, RemoveCategory(category))]) == Success(book)
  {
    var c := book[IndexOf(Names(book), name)];
    IndexOfUnique(c.categories + [category], category, |c.categories|);
    assert Erase(c.categories + [category], |c.categories|) == c.categories;
    TwoEdits(book, name, AddCategory(category), RemoveCategory(category));
  }

  /**
   * Adding a contact and removing it by name restores the book exactly when everything from the
   * oldest bearer of the name on is an untouched contact of that name; in particular for a fresh name.
   */
  lemma AddThenRemoveContact(book: seq<Contact>, name: string)
    ensures Run(book, [Add(name), Remove(name)]) == Success(book) <==>
            forall k :: IndexOf(Names(book), name) <= k < |book| ==> book[k] == Blank(name)
  {
    var i := IndexOf(Names(book), name);
    var grown := book + [Blank(name)];
    assert Names(grown) == Names(book) + [name];
    IndexOfUnique(Names(grown), name, i);
    TwoSteps(book, Add(name), Remove(name));
    OneStep(grown, Remove(name));
    ShiftRestores(book, i, Blank(name));
  }

  /** Appending `x` and dropping position `i` gives the sequence back exactly when it is constantly `x` from `i` on. */
  lemma {:induction false} ShiftRestores(s: seq<Contact>, i: nat, x: Contact)
    requires i <= |s|
    ensures Erase(s + [x], i) == s <==> forall k :: i <= k < |s| ==> s[k] == x
  {
    var shifted := Erase(s + [x], i);
    assert forall k :: 0 <= k < i ==> shifted[k] == s[k];
    assert forall k :: i <= k < |s| ==> shifted[k] == (s + [x])[k + 1];
    if shifted == s {
      var k := |s|;
      while k > i
        invariant i <= k <= |s|
        invariant forall j :: k <= j < |s| ==> s[j] == x
      {
        k := k - 1;
        assert s[k] == shifted[k] == (s + [x])[k + 1];
      }
    }
  }
}
