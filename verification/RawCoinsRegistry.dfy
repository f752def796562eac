/** The registry of raw coins, filled from a file of coin entries. */
module RawCoinsRegistry {
  import opened Wrappers
  import opened JsonValues
  import opened RawCoins
  import opened RawCoinsSchema

  /** An array decodes element by element, or not at all. */
  function DecodeAll(items: seq<Json>): Option<seq<CoinElement>> {
    if items == [] then Some([])
    else if !items[0].Obj? then None
    else match (Decode(items[0].fields), DecodeAll(items[1..]))
      case (Some(x), Some(rest)) => Some([x] + rest)
      case _ => None
  }

  function Coins(doc: Option<Json>): Option<seq<CoinElement>> {
    if doc.Some? && doc.value.Arr? then DecodeAll(doc.value.items) else None
  }

  /** Entries stored one after the other under their own names. */
  function Registry(coins: seq<CoinElement>): map<string, CoinElement> {
    if coins == [] then map[]
    else
      var last := coins[|coins| - 1];
      Registry(coins[..|coins| - 1])[last.coin := last]
  }

  /** Every listed name is stored... */
  lemma {:induction false} RegistryListed(coins: seq<CoinElement>, i: nat)
    requires i < |coins|
    ensures coins[i].coin in Registry(coins)
  {
    if i < |coins| - 1 { RegistryListed(coins[..|coins| - 1], i); }
  }

  /** ...and nothing else: what is stored under a name is the last entry listed with that name. */
  lemma {:induction false} RegistryLast(coins: seq<CoinElement>, name: string) returns (i: nat)
    requires name in Registry(coins)
    ensures i < |coins| && coins[i].coin == name && coins[i] == Registry(coins)[name]
    ensures forall j :: i < j < |coins| ==> coins[j].coin != name
  {
    i := |coins| - 1;
    if coins[i].coin != name { i := RegistryLast(coins[..i], name); }
  }

  lemma RegistryNext(coins: seq<CoinElement>, n: nat)
    requires n < |coins|
    ensures Registry(coins[..n + 1]) == Registry(coins[..n])[coins[n].coin := coins[n]]
  {
    assert coins[..n + 1][..n] == coins[..n];
  }

  /** All or nothing: the array decodes exactly when each of its elements does. */
  lemma {:induction false} DecodeAllAt(items: seq<Json>)
    ensures DecodeAll(items).Some? <==>
            forall i :: 0 <= i < |items| ==> items[i].Obj? && Decode(items[i].fields).Some?
    ensures DecodeAll(items).Some? ==>
              |DecodeAll(items).value| == |items| &&
              forall i :: 0 <= i < |items| ==> Decode(items[i].fields) == Some(DecodeAll(items).value[i])
  {
    hide Decode;
    if items != [] {
      DecodeAllAt(items[1..]);
      assert forall i :: 0 < i < |items| ==> items[i] == items[1..][i - 1];
    }
  }

  /** The JSON value is an entry of that name. */
  ghost predicate Names(j: Json, name: string) {
    j.Obj? && "coin" in j.fields && j.fields["coin"] == Str(name)
  }

  /** The document is an array of entries the decoder accepts. */
  ghost predicate LegibleList(doc: Option<Json>) {
    && doc.Some? && doc.value.Arr?
    && forall i :: 0 <= i < |doc.value.items| ==> doc.value.items[i].Obj? && LegibleCoin(doc.value.items[i].fields)
  }

  ghost predicate LastNamed(items: seq<Json>, name: string, i: nat) {
    && i < |items| && Names(items[i], name)
    && forall j :: i < j < |items| ==> !Names(items[j], name)
  }

  lemma CoinsLegible(doc: Option<Json>)
    ensures Coins(doc).Some? <==> LegibleList(doc)
    ensures Coins(doc).Some? ==>
              && doc.Some? && doc.value.Arr? && |Coins(doc).value| == |doc.value.items|
              && forall i :: 0 <= i < |doc.value.items| ==>
                   doc.value.items[i].Obj? && Describes(doc.value.items[i].fields, Coins(doc).value[i])
  {
    hide LegibleCoin;
    hide Describes;
    hide Decode;
    if doc.Some? && doc.value.Arr? {
      var items := doc.value.items;
      DecodeAllAt(items);
      forall i | 0 <= i < |items| && items[i].Obj?
        ensures Decode(items[i].fields).Some? <==> LegibleCoin(items[i].fields)
        ensures Decode(items[i].fields).Some? ==> Describes(items[i].fields, Decode(items[i].fields).value)
      {
        DecodesExactly(items[i].fields);
      }
    }
  }

  lemma DescribedName(j: Json, x: CoinElement, name: string)
    requires j.Obj? && Describes(j.fields, x)
    ensures Names(j, name) <==> x.coin == name
  {
  }

  /** The registry of a legible list: its names, each with what its last entry says. */
  lemma RegistryMeaning(doc: Option<Json>, name: string)
    requires LegibleList(doc)
    ensures Coins(doc).Some?
    ensures name in Registry(Coins(doc).value) <==> exists i: nat :: LastNamed(doc.value.items, name, i)
    ensures forall i: nat :: LastNamed(doc.value.items, name, i) ==>
              Describes(doc.value.items[i].fields, Registry(Coins(doc).value)[name])
  {
    hide Coins;
    hide LegibleList;
    hide Registry;
    hide Describes;
    hide Names;
    CoinsLegible(doc);
    var items, coins := doc.value.items, Coins(doc).value;
    forall i | 0 <= i < |items| ensures Names(items[i], name) <==> coins[i].coin == name {
      DescribedName(items[i], coins[i], name);
    }
    if name in Registry(coins) {
      var i := RegistryLast(coins, name);
      assert LastNamed(items, name, i);
    }
    forall i: nat | LastNamed(items, name, i)
      ensures name in Registry(coins) && Describes(items[i].fields, Registry(coins)[name])
    {
      RegistryListed(coins, i);
      var k := RegistryLast(coins, name);
    }
  }

  /** Fills the registry from a parsed file, `None` when parsing failed: all of it or nothing. */
  method ParseRegistry(doc: Option<Json>) returns (out: map<string, CoinElement>)
    ensures out == if Coins(doc).None? then map[] else Registry(Coins(doc).value)
    ensures !LegibleList(doc) ==> out == map[]
    ensures LegibleList(doc) ==> forall name :: name in out <==> exists i: nat :: LastNamed(doc.value.items, name, i)
    ensures LegibleList(doc) ==> forall name, i: nat :: LastNamed(doc.value.items, name, i) ==>
              name in out && Describes(doc.value.items[i].fields, out[name])
  {
    hide Coins;
    hide LegibleList;
    hide LastNamed;
    hide Describes;
    CoinsLegible(doc);
    out := map[];
    var coins := Coins(doc);
    if coins.Some? {
      assert Registry(coins.value[..0]) == map[];
      hide Registry;
      for n := 0 to |coins.value|
        invariant out == Registry(coins.value[..n])
      {
        RegistryNext(coins.value, n);
        out := out[coins.value[n].coin := coins.value[n]];
      }
      assert coins.value[..|coins.value|] == coins.value;
      forall name: string { RegistryMeaning(doc, name); }
    }
  }
}
