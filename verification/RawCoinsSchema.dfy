/** Which JSON documents the coin decoder accepts, and what it makes of them, key by key. */
module RawCoinsSchema {
  import opened Wrappers
  import opened JsonValues
  import opened RawCoins

  datatype Entry = Entry(key: string, kind: Kind)

  /** The optional members of a coin entry, as the file spells and types them. */
  ghost function Schema(f: Field): Entry {
    match f
    case Name => Entry("name", Text)
    case Fname => Entry("fname", Text)
    case Etomic => Entry("etomic", Text)
    case ChainId => Entry("chain_id", Whole)
    case Rpcport => Entry("rpcport", Whole)
    case Pubtype => Entry("pubtype", Whole)
    case P2Shtype => Entry("p2shtype", Whole)
    case Wiftype => Entry("wiftype", Whole)
    case Txfee => Entry("txfee", Whole)
    case Confpath => Entry("confpath", Text)
    case Kdf => Entry("kdf", Whole)
    case RequiredConfirmations => Entry("required_confirmations", Whole)
    case Asset => Entry("asset", Text)
    case Txversion => Entry("txversion", Whole)
    case Overwintered => Entry("overwintered", Whole)
    case RequiresNotarization => Entry("requires_notarization", Flag)
    case IsPoS => Entry("isPoS", Whole)
    case Segwit => Entry("segwit", Flag)
    case AddressFormat => Entry("address_format", Format)
    case EstimateFeeMode => Entry("estimate_fee_mode", Text)
    case Taddr => Entry("taddr", Whole)
    case Decimals => Entry("decimals", Whole)
    case ForceMinRelayFee => Entry("force_min_relay_fee", Flag)
    case P2P => Entry("p2p", Whole)
    case Magic => Entry("magic", Text)
    case NSpv => Entry("nSPV", Text)
    case VersionGroupId => Entry("version_group_id", Text)
    case ConsensusBranchId => Entry("consensus_branch_id", Text)
    case Dust => Entry("dust", Whole)
    case AvgBlocktime => Entry("avg_blocktime", Decimal)
  }

  /** A non-null value that a member of the kind can be read from; a float must be in range once truncated. */
  ghost predicate LegibleValue(kind: Kind, j: Json) {
    match kind
    case Text => j.Str?
    case Flag => j.Bool?
    case Whole => j.Int? || (j.Float? && -9223372036854775809.0 < j.r < 9223372036854775808.0)
    case Decimal => j.Int? || j.Float?
    case Format =>
      && j.Obj? && "format" in j.fields && j.fields["format"].Str?
      && ("network" in j.fields ==> j.fields["network"].Str?)
  }

  /** The value is what the JSON value says; integers beyond 63 bits wrap around and floats lose their fraction. */
  ghost predicate Says(kind: Kind, j: Json, v: Value) {
    match kind
    case Text => v.VText? && j == Str(v.text)
    case Flag => v.VFlag? && j == Bool(v.flag)
    case Whole =>
      && v.VWhole?
      && (j.Int? ==> v.whole == if j.i < 9223372036854775808 then j.i else j.i - 18446744073709551616)
      && (j.Float? && j.r >= 0.0 ==> v.whole as real <= j.r < v.whole as real + 1.0)
      && (j.Float? && j.r < 0.0 ==> v.whole as real - 1.0 < j.r <= v.whole as real)
    case Decimal =>
      v.VDecimal? && (j.Int? ==> v.decimal == j.i as real) && (j.Float? ==> v.decimal == j.r)
    case Format =>
      && v.VFormat? && j.Obj? && Lookup(j.fields, "format") == Some(Str(v.format))
      && (if v.network.Some? then Lookup(j.fields, "network") == Some(Str(v.network.value))
          else "network" !in j.fields)
  }

  ghost predicate Legible(obj: Object, key: string, kind: Kind) {
    key in obj && obj[key] != Null ==> LegibleValue(kind, obj[key])
  }

  /** What the decoder needs of a document. */
  ghost predicate LegibleCoin(obj: Object) {
    && "coin" in obj && obj["coin"].Str? && "protocol" in obj
    && forall f: Field :: Legible(obj, Schema(f).key, Schema(f).kind)
  }

  /** The member is absent when its key is missing or null, and otherwise what the value says. */
  ghost predicate Shows(obj: Object, key: string, kind: Kind, v: Option<Value>) {
    if key !in obj || obj[key] == Null then v.None? else v.Some? && Says(kind, obj[key], v.value)
  }

  ghost predicate Describes(obj: Object, x: CoinElement) {
    && Lookup(obj, "coin") == Some(Str(x.coin)) && Lookup(obj, "protocol") == Some(x.protocol)
    && forall f: Field :: Shows(obj, Schema(f).key, Schema(f).kind, Member(x.members, f))
  }

  lemma SchemaIs(f: Field)
    ensures Schema(f) == Entry(Key(f), KindOf(f))
  {
  }

  lemma TruncateIs(r: real)
    ensures r >= 0.0 ==> Truncate(r) >= 0 && Truncate(r) as real <= r < Truncate(r) as real + 1.0
    ensures r < 0.0 ==> Truncate(r) <= 0 && Truncate(r) as real - 1.0 < r <= Truncate(r) as real
  {
  }

  lemma ReadExactly(kind: Kind, j: Json)
    ensures Read(kind, j).Some? <==> LegibleValue(kind, j)
    ensures Read(kind, j).Some? ==> Says(kind, j, Read(kind, j).value)
  {
    if j.Float? { TruncateIs(j.r); }
    hide Truncate;
  }

  lemma OptionalExactly(obj: Object, f: Field)
    ensures ReadOptional(obj, f).Some? <==> Legible(obj, Schema(f).key, Schema(f).kind)
    ensures ReadOptional(obj, f).Some? ==> Shows(obj, Schema(f).key, Schema(f).kind, ReadOptional(obj, f).value)
  {
    SchemaIs(f);
    hide Schema;
    hide Key;
    hide KindOf;
    hide Read;
    hide LegibleValue;
    hide Says;
    if Key(f) in obj { ReadExactly(KindOf(f), obj[Key(f)]); }
  }

  /** A document decodes exactly when it is legible, and the entry then holds what the document says, key by key. */
  lemma DecodesExactly(obj: Object)
    ensures Decode(obj).Some? <==> LegibleCoin(obj)
    ensures Decode(obj).Some? ==> Describes(obj, Decode(obj).value)
  {
    hide Legible;
    hide Shows;
    hide Schema;
    hide ReadFields;
    hide ReadOptional;
    forall f: Field ensures f in READ_ORDER { AllListed(f); }
    ReadFieldsAt(READ_ORDER, obj);
    forall f: Field
      ensures ReadOptional(obj, f).Some? <==> Legible(obj, Schema(f).key, Schema(f).kind)
      ensures Decode(obj).Some? ==> Shows(obj, Schema(f).key, Schema(f).kind, Member(Decode(obj).value.members, f))
    {
      OptionalExactly(obj, f);
    }
  }

  /** What a value is written as. */
  ghost predicate Spells(j: Json, v: Value) {
    match v
    case VText(text) => j == Str(text)
    case VWhole(whole) => j == Int(whole)
    case VFlag(flag) => j == Bool(flag)
    case VDecimal(decimal) => j == Float(decimal)
    case VFormat(format, network) =>
      && j.Obj? && j.fields.Keys == {"format"} + (if network.Some? then {"network"} else {})
      && j.fields["format"] == Str(format) && (network.Some? ==> j.fields["network"] == Str(network.value))
  }

  lemma WriteSpells(v: Value)
    ensures Spells(Write(v), v)
  {
  }

  /** An entry is written under the keys of the members it has, and no others. */
  lemma EncodesExactly(x: CoinElement)
    ensures Lookup(Encode(x), "coin") == Some(Str(x.coin)) && Lookup(Encode(x), "protocol") == Some(x.protocol)
    ensures forall f :: if f in x.members then
              Schema(f).key in Encode(x) && Spells(Encode(x)[Schema(f).key], x.members[f])
              else Schema(f).key !in Encode(x)
    ensures forall key :: key in Encode(x) ==>
              key == "coin" || key == "protocol" || exists f :: f in x.members && Schema(f).key == key
  {
    hide Schema;
    hide Key;
    hide FieldOf;
    hide Encode;
    hide Write;
    hide Spells;
    EncodeAt(x, "coin");
    EncodeAt(x, "protocol");
    forall f
      ensures if f in x.members then Schema(f).key in Encode(x) && Spells(Encode(x)[Schema(f).key], x.members[f])
              else Schema(f).key !in Encode(x)
    {
      SchemaIs(f);
      KeysDistinct(f);
      EncodeAt(x, Key(f));
      if f in x.members { WriteSpells(x.members[f]); }
    }
    forall key | key in Encode(x) && key != "coin" && key != "protocol"
      ensures exists f :: f in x.members && Schema(f).key == key
    {
      EncodeAt(x, key);
      FieldOfKey(key);
      SchemaIs(FieldOf(key).value);
    }
  }
}
