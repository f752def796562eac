/** The decoder and encoder of raw coin entries. */
module RawCoins {
  import opened Wrappers
  import opened JsonValues

  /** The optional members of a coin entry. */
  datatype Field =
    | Name | Fname | Etomic | ChainId | Rpcport | Pubtype | P2Shtype | Wiftype | Txfee | Confpath | Kdf
    | RequiredConfirmations | Asset | Txversion | Overwintered | RequiresNotarization | IsPoS | Segwit
    | AddressFormat | EstimateFeeMode | Taddr | Decimals | ForceMinRelayFee | P2P | Magic | NSpv
    | VersionGroupId | ConsensusBranchId | Dust | AvgBlocktime

  /** What a member holds. */
  datatype Kind = Text | Whole | Flag | Decimal | Format

  type Int64 = i: int | -0x8000_0000_0000_0000 <= i < 0x8000_0000_0000_0000

  datatype Value =
    | VText(text: string)
    | VWhole(whole: Int64)
    | VFlag(flag: bool)
    | VDecimal(decimal: real)
    | VFormat(format: string, network: Option<string>)

  /** The JSON key of each member. */
  function Key(f: Field): string {
    match f
    case Name => "name"
    case Fname => "fname"
    case Etomic => "etomic"
    case ChainId => "chain_id"
    case Rpcport => "rpcport"
    case Pubtype => "pubtype"
    case P2Shtype => "p2shtype"
    case Wiftype => "wiftype"
    case Txfee => "txfee"
    case Confpath => "confpath"
    case Kdf => "kdf"
    case RequiredConfirmations => "required_confirmations"
    case Asset => "asset"
    case Txversion => "txversion"
    case Overwintered => "overwintered"
    case RequiresNotarization => "requires_notarization"
    case IsPoS => "isPoS"
    case Segwit => "segwit"
    case AddressFormat => "address_format"
    case EstimateFeeMode => "estimate_fee_mode"
    case Taddr => "taddr"
    case Decimals => "decimals"
    case ForceMinRelayFee => "force_min_relay_fee"
    case P2P => "p2p"
    case Magic => "magic"
    case NSpv => "nSPV"
    case VersionGroupId => "version_group_id"
    case ConsensusBranchId => "consensus_branch_id"
    case Dust => "dust"
    case AvgBlocktime => "avg_blocktime"
  }

  function KindOf(f: Field): Kind {
    match f
    case Name | Fname | Etomic | Confpath | Asset | EstimateFeeMode | Magic | NSpv |
         VersionGroupId | ConsensusBranchId => Text
    case RequiresNotarization | Segwit | ForceMinRelayFee => Flag
    case AddressFormat => Format
    case AvgBlocktime => Decimal
    case _ => Whole
  }

  /**
   * The member of a key, told by the key's length and third letter alone. The program has no such table: it
   * serves the proof that all keys are different, which would otherwise compare them two by two.
   */
  function FieldAt(length: nat, third: char): Option<Field> {
    match (length, third)
    case (3, 'f') => Some(Kdf)
    case (3, 'p') => Some(P2P)
    case (4, 'm') => Some(Name)
    case (4, 'P') => Some(NSpv)
    case (4, 's') => Some(Dust)
    case (5, 'a') => Some(Fname)
    case (5, 'f') => Some(Txfee)
    case (5, 's') => Some(Asset)
    case (5, 'P') => Some(IsPoS)
    case (5, 'd') => Some(Taddr)
    case (5, 'g') => Some(Magic)
    case (6, 'o') => Some(Etomic)
    case (6, 'g') => Some(Segwit)
    case (7, 'c') => Some(Rpcport)
    case (7, 'b') => Some(Pubtype)
    case (7, 'f') => Some(Wiftype)
    case (8, 'a') => Some(ChainId)
    case (8, 's') => Some(P2Shtype)
    case (8, 'n') => Some(Confpath)
    case (8, 'c') => Some(Decimals)
    case (9, 'v') => Some(Txversion)
    case (12, 'e') => Some(Overwintered)
    case (13, 'g') => Some(AvgBlocktime)
    case (14, 'd') => Some(AddressFormat)
    case (16, 'r') => Some(VersionGroupId)
    case (17, 't') => Some(EstimateFeeMode)
    case (19, 'r') => Some(ForceMinRelayFee)
    case (19, 'n') => Some(ConsensusBranchId)
    case (21, 'q') => Some(RequiresNotarization)
    case (22, 'q') => Some(RequiredConfirmations)
    case _ => None
  }

  function FieldOf(key: string): (f: Option<Field>)
    ensures f.Some? ==> Key(f.value) == key
  {
    if |key| <= 2 then None
    else match FieldAt(|key|, key[2])
      case None => None
      case Some(f) => if Key(f) == key then Some(f) else None
  }

  /** The order in which the decoder reads the members. */
  const READ_ORDER: seq<Field> := [
    Name, Fname, Etomic, ChainId, Rpcport, Pubtype, P2Shtype, Wiftype, Txfee, Confpath, Kdf,
    RequiredConfirmations, Asset, Txversion, Overwintered, RequiresNotarization, IsPoS, Segwit, AddressFormat,
    EstimateFeeMode, Taddr, Decimals, ForceMinRelayFee, P2P, Magic, NSpv, VersionGroupId, ConsensusBranchId,
    Dust, AvgBlocktime ]

  /** The order in which the encoder writes them; one is written twice. */
  const WRITE_ORDER: seq<Field> := [
    Name, Fname, Etomic, ChainId, Rpcport, Pubtype, P2Shtype, Wiftype, Txfee, Confpath, Kdf,
    RequiredConfirmations, Asset, Txversion, Overwintered, RequiresNotarization, Overwintered, IsPoS, Segwit,
    AddressFormat, EstimateFeeMode, Taddr, Decimals, ForceMinRelayFee, P2P, Magic, NSpv, VersionGroupId,
    ConsensusBranchId, Dust, AvgBlocktime ]

  predicate Fits(v: Value, kind: Kind) {
    match kind
    case Text => v.VText?
    case Whole => v.VWhole?
    case Flag => v.VFlag?
    case Decimal => v.VDecimal?
    case Format => v.VFormat?
  }

  /** The members that have a value, each of its own kind. */
  type Members = m: map<Field, Value> | forall f :: f in m ==> Fits(m[f], KindOf(f)) witness map[]

  datatype CoinElement = CoinElement(coin: string, members: Members, protocol: Json)

  function Member(members: Members, f: Field): Option<Value> {
    if f in members then Some(members[f]) else None
  }

  // ---- single values ----

  function Wrap(i: JsonInt): Int64 {
    if i < 0x8000_0000_0000_0000 then i else i - 0x1_0000_0000_0000_0000
  }

  function Truncate(r: real): int {
    if r >= 0.0 then r.Floor else -((-r).Floor)
  }

  /** A typed read; `None` is an exception. */
  function Read(kind: Kind, j: Json): (v: Option<Value>)
    ensures v.Some? ==> Fits(v.value, kind)
  {
    match (kind, j)
    case (Text, Str(s)) => Some(VText(s))
    case (Flag, Bool(b)) => Some(VFlag(b))
    case (Whole, Int(i)) => Some(VWhole(Wrap(i)))
    case (Whole, Float(r)) =>
      var i := Truncate(r);
      if -0x8000_0000_0000_0000 <= i < 0x8000_0000_0000_0000 then Some(VWhole(i)) else None
    case (Decimal, Int(i)) => Some(VDecimal(i as real))
    case (Decimal, Float(r)) => Some(VDecimal(r))
    case (Format, Obj(fields)) =>
      var format := GetString(Lookup(fields, "format"));
      var network := GetString(Lookup(fields, "network"));
      if format.None? || ("network" in fields && network.None?) then None
      else Some(VFormat(format.value, network))
    case _ => None
  }

  function Write(v: Value): Json {
    match v
    case VText(s) => Str(s)
    case VWhole(i) => Int(i)
    case VFlag(b) => Bool(b)
    case VDecimal(r) => Float(r)
    case VFormat(format, network) =>
      var fields := map["format" := Str(format)];
      Obj(if network.Some? then fields["network" := Str(network.value)] else fields)
  }

  lemma ReadWrite(v: Value, kind: Kind)
    requires Fits(v, kind)
    ensures Read(kind, Write(v)) == Some(v)
    ensures Write(v) != Null
  {
  }

  /** The values that a read followed by a write leaves as they are. */
  predicate Canonical(kind: Kind, j: Json) {
    match (kind, j)
    case (Whole, Int(i)) => i < 0x8000_0000_0000_0000
    case (Whole, _) => false
    case (Decimal, _) => j.Float?
    case (Format, Obj(fields)) => forall k :: k in fields ==> k == "format" || k == "network"
    case _ => true
  }

  lemma WriteRead(kind: Kind, j: Json)
    requires Read(kind, j).Some?
    ensures Write(Read(kind, j).value) == j <==> Canonical(kind, j)
    ensures Canonical(kind, Write(Read(kind, j).value))
  {
    if kind.Format? {
      var written := Write(Read(kind, j).value);
      assert forall k :: k in written.fields ==> k in j.fields && written.fields[k] == j.fields[k];
      if Canonical(kind, j) {
        assert written.fields == j.fields;
      }
    }
  }

  // ---- coin entries ----

  /** An optional member: absent or null is no value; the outer `None` is an exception. */
  function ReadOptional(obj: Object, f: Field): Option<Option<Value>> {
    if Key(f) !in obj || obj[Key(f)] == Null then Some(None)
    else match Read(KindOf(f), obj[Key(f)])
      case None => None
      case Some(v) => Some(Some(v))
  }

  function ReadFields(fields: seq<Field>, obj: Object): Option<Members> {
    if fields == [] then Some(map[])
    else match (ReadOptional(obj, fields[0]), ReadFields(fields[1..], obj))
      case (Some(None), Some(rest)) => Some(rest)
      case (Some(Some(v)), Some(rest)) => Some(rest[fields[0] := v])
      case _ => None
  }

  function Decode(obj: Object): Option<CoinElement> {
    var coin := GetString(Lookup(obj, "coin"));
    var members := ReadFields(READ_ORDER, obj);
    if coin.None? || members.None? || "protocol" !in obj then None
    else Some(CoinElement(coin.value, members.value, obj["protocol"]))
  }

  function WriteFields(fields: seq<Field>, members: Members, obj: Object): Object {
    if fields == [] then obj
    else
      var f := fields[0];
      WriteFields(fields[1..], members, if f in members then obj[Key(f) := Write(members[f])] else obj)
  }

  function Encode(x: CoinElement): Object {
    WriteFields(WRITE_ORDER, x.members, map["coin" := Str(x.coin)])["protocol" := x.protocol]
  }

  // ---- the table of members ----

  lemma KeyAt(f: Field)
    ensures |Key(f)| > 2 && FieldAt(|Key(f)|, Key(f)[2]) == Some(f)
  {
  }

  /** Every member has a key of its own, different from those of the two mandatory members. */
  lemma KeysDistinct(f: Field)
    ensures FieldOf(Key(f)) == Some(f)
    ensures Key(f) != "coin" && Key(f) != "protocol"
  {
    hide Key;
    KeyAt(f);
    assert FieldAt(|"coin"|, "coin"[2]) == None;
    assert FieldAt(|"protocol"|, "protocol"[2]) == None;
  }

  /** Each member's place in the two orders; spelt out because the verifier does not search a long list. */
  lemma AllListed(f: Field)
    ensures f in READ_ORDER && f in WRITE_ORDER
  {
    match f
    case Name => assert READ_ORDER[0] == f && WRITE_ORDER[0] == f;
    case Fname => assert READ_ORDER[1] == f && WRITE_ORDER[1] == f;
    case Etomic => assert READ_ORDER[2] == f && WRITE_ORDER[2] == f;
    case ChainId => assert READ_ORDER[3] == f && WRITE_ORDER[3] == f;
    case Rpcport => assert READ_ORDER[4] == f && WRITE_ORDER[4] == f;
    case Pubtype => assert READ_ORDER[5] == f && WRITE_ORDER[5] == f;
    case P2Shtype => assert READ_ORDER[6] == f && WRITE_ORDER[6] == f;
    case Wiftype => assert READ_ORDER[7] == f && WRITE_ORDER[7] == f;
    case Txfee => assert READ_ORDER[8] == f && WRITE_ORDER[8] == f;
    case Confpath => assert READ_ORDER[9] == f && WRITE_ORDER[9] == f;
    case Kdf => assert READ_ORDER[10] == f && WRITE_ORDER[10] == f;
    case RequiredConfirmations => assert READ_ORDER[11] == f && WRITE_ORDER[11] == f;
    case Asset => assert READ_ORDER[12] == f && WRITE_ORDER[12] == f;
    case Txversion => assert READ_ORDER[13] == f && WRITE_ORDER[13] == f;
    case Overwintered => assert READ_ORDER[14] == f && WRITE_ORDER[14] == f;
    case RequiresNotarization => assert READ_ORDER[15] == f && WRITE_ORDER[15] == f;
    case IsPoS => assert READ_ORDER[16] == f && WRITE_ORDER[17] == f;
    case Segwit => assert READ_ORDER[17] == f && WRITE_ORDER[18] == f;
    case AddressFormat => assert READ_ORDER[18] == f && WRITE_ORDER[19] == f;
    case EstimateFeeMode => assert READ_ORDER[19] == f && WRITE_ORDER[20] == f;
    case Taddr => assert READ_ORDER[20] == f && WRITE_ORDER[21] == f;
    case Decimals => assert READ_ORDER[21] == f && WRITE_ORDER[22] == f;
    case ForceMinRelayFee => assert READ_ORDER[22] == f && WRITE_ORDER[23] == f;
    case P2P => assert READ_ORDER[23] == f && WRITE_ORDER[24] == f;
    case Magic => assert READ_ORDER[24] == f && WRITE_ORDER[25] == f;
    case NSpv => assert READ_ORDER[25] == f && WRITE_ORDER[26] == f;
    case VersionGroupId => assert READ_ORDER[26] == f && WRITE_ORDER[27] == f;
    case ConsensusBranchId => assert READ_ORDER[27] == f && WRITE_ORDER[28] == f;
    case Dust => assert READ_ORDER[28] == f && WRITE_ORDER[29] == f;
    case AvgBlocktime => assert READ_ORDER[29] == f && WRITE_ORDER[30] == f;
  }

  // ---- what reading and writing the whole table amounts to ----

  lemma {:induction false} ReadFieldsAt(fields: seq<Field>, obj: Object)
    ensures ReadFields(fields, obj).Some? <==> forall f :: f in fields ==> ReadOptional(obj, f).Some?
    ensures ReadFields(fields, obj).Some? ==> forall f :: f in fields ==>
              ReadOptional(obj, f).value == Member(ReadFields(fields, obj).value, f)
    ensures ReadFields(fields, obj).Some? ==> forall f :: f in ReadFields(fields, obj).value ==> f in fields
  {
    hide Key;
    hide KindOf;
    hide Read;
    if fields != [] {
      ReadFieldsAt(fields[1..], obj);
      assert forall f :: f in fields <==> f == fields[0] || f in fields[1..];
    }
  }

  lemma {:induction false} WriteFieldsAt(fields: seq<Field>, members: Members, obj: Object, key: string)
    ensures Lookup(WriteFields(fields, members, obj), key)
         == if FieldOf(key).Some? && FieldOf(key).value in fields && FieldOf(key).value in members
            then Some(Write(members[FieldOf(key).value])) else Lookup(obj, key)
  {
    hide Key;
    hide FieldOf;
    hide Write;
    if fields != [] {
      var f := fields[0];
      KeysDistinct(f);
      var next := if f in members then obj[Key(f) := Write(members[f])] else obj;
      WriteFieldsAt(fields[1..], members, next, key);
      assert fields == [f] + fields[1..];
    }
  }

  /** The whole of an encoded entry, key by key. */
  lemma EncodeAt(x: CoinElement, key: string)
    ensures Lookup(Encode(x), key)
         == if key == "protocol" then Some(x.protocol)
            else if key == "coin" then Some(Str(x.coin))
            else if FieldOf(key).Some? then
              if FieldOf(key).value in x.members then Some(Write(x.members[FieldOf(key).value])) else None
            else None
  {
    hide Key;
    hide FieldOf;
    hide WriteFields;
    hide Write;
    WriteFieldsAt(WRITE_ORDER, x.members, map["coin" := Str(x.coin)], key);
    if FieldOf(key).Some? {
      AllListed(FieldOf(key).value);
      KeysDistinct(FieldOf(key).value);
    }
  }

  // ---- the codec ----

  lemma EncodedMember(x: CoinElement, f: Field)
    ensures ReadOptional(Encode(x), f) == Some(Member(x.members, f))
  {
    hide Key;
    hide KindOf;
    hide FieldOf;
    hide Encode;
    hide Read;
    hide Write;
    KeysDistinct(f);
    EncodeAt(x, Key(f));
    if f in x.members { ReadWrite(x.members[f], KindOf(f)); }
  }

  lemma EncodedMembers(x: CoinElement, fields: seq<Field>)
    requires forall f: Field :: f in fields
    ensures ReadFields(fields, Encode(x)) == Some(x.members)
  {
    hide Encode;
    hide ReadOptional;
    forall f: Field ensures ReadOptional(Encode(x), f) == Some(Member(x.members, f)) {
      EncodedMember(x, f);
    }
    ReadFieldsAt(fields, Encode(x));
    var members := ReadFields(fields, Encode(x)).value;
    assert forall f: Field :: Member(members, f) == Member(x.members, f);
    MembersDecide(members, x.members);
  }

  lemma MembersDecide(a: Members, b: Members)
    requires forall f: Field :: Member(a, f) == Member(b, f)
    ensures a == b
  {
    assert forall f :: f in a ==> Member(a, f).Some? && Member(b, f).Some?;
    assert forall f :: f in b ==> Member(b, f).Some? && Member(a, f).Some?;
    assert forall f :: f in a ==> Member(a, f).value == Member(b, f).value;
  }

  /** Every coin entry is read back as it was written. */
  lemma DecodeEncode(x: CoinElement)
    ensures Decode(Encode(x)) == Some(x)
  {
    hide Encode;
    hide ReadFields;
    EncodeAt(x, "coin");
    EncodeAt(x, "protocol");
    forall f: Field ensures f in READ_ORDER { AllListed(f); }
    EncodedMembers(x, READ_ORDER);
  }

  /** The keys that are neither unknown nor a null optional member. */
  predicate Kept(obj: Object, key: string)
    requires key in obj
  {
    key == "coin" || key == "protocol" || (FieldOf(key).Some? && obj[key] != Null)
  }

  function Stripped(obj: Object): Object {
    map key | key in obj && Kept(obj, key) :: obj[key]
  }

  /** The value that a decodable object's key has after a round trip. */
  function Normal(obj: Object, key: string): Json {
    if key in obj && key != "coin" && key != "protocol" && FieldOf(key).Some? then
      match Read(KindOf(FieldOf(key).value), obj[key])
      case Some(v) => Write(v)
      case None => obj[key]
    else if key in obj then obj[key]
    else Null
  }

  function Normalised(obj: Object): Object {
    map key | key in obj && Kept(obj, key) :: Normal(obj, key)
  }

  lemma DecodedMember(obj: Object, f: Field)
    requires Decode(obj).Some?
    ensures ReadOptional(obj, f) == Some(Member(Decode(obj).value.members, f))
  {
    hide ReadOptional;
    AllListed(f);
    ReadFieldsAt(READ_ORDER, obj);
  }

  /** Writing a decoded object gives the object without unknown keys and null optional members, numbers normalised. */
  lemma EncodeDecode(obj: Object)
    requires Decode(obj).Some?
    ensures Encode(Decode(obj).value) == Normalised(obj)
  {
    hide Key;
    hide FieldOf;
    hide Encode;
    hide Read;
    hide Write;
    hide ReadFields;
    var x := Decode(obj).value;
    forall key: string
      ensures Lookup(Encode(x), key) == Lookup(Normalised(obj), key)
    {
      EncodeAt(x, key);
      if FieldOf(key).Some? {
        FieldOfKey(key);
        KeysDistinct(FieldOf(key).value);
        DecodedMember(obj, FieldOf(key).value);
      }
    }
    LookupsDecide(Encode(x), Normalised(obj));
  }

  lemma FieldOfKey(key: string)
    requires FieldOf(key).Some?
    ensures Key(FieldOf(key).value) == key
  {
  }

  lemma LookupsDecide(a: Object, b: Object)
    requires forall key: string :: Lookup(a, key) == Lookup(b, key)
    ensures a == b
  {
    assert forall key :: key in a ==> Lookup(a, key).Some? && Lookup(b, key).Some?;
    assert forall key :: key in b ==> Lookup(b, key).Some? && Lookup(a, key).Some?;
    assert forall key :: key in a ==> Lookup(a, key).value == Lookup(b, key).value;
  }

  /** The optional members hold values that a read followed by a write does not change. */
  ghost predicate CanonicalObject(obj: Object) {
    forall f :: Key(f) in obj && obj[Key(f)] != Null ==> Canonical(KindOf(f), obj[Key(f)])
  }

  /** The round trip only strips keys exactly when the numbers and address formats were canonical. */
  lemma EncodeDecodeExactly(obj: Object)
    requires Decode(obj).Some?
    ensures Encode(Decode(obj).value) == Stripped(obj) <==> CanonicalObject(obj)
  {
    hide Key;
    hide KindOf;
    hide FieldOf;
    hide Decode;
    hide Encode;
    hide Read;
    hide Write;
    hide Canonical;
    EncodeDecode(obj);
    forall f | Key(f) in obj && obj[Key(f)] != Null
      ensures Kept(obj, Key(f))
      ensures Normal(obj, Key(f)) == obj[Key(f)] <==> Canonical(KindOf(f), obj[Key(f)])
    {
      KeysDistinct(f);
      DecodedMember(obj, f);
      WriteRead(KindOf(f), obj[Key(f)]);
    }
    if Normalised(obj) == Stripped(obj) {
      forall f | Key(f) in obj && obj[Key(f)] != Null ensures Canonical(KindOf(f), obj[Key(f)]) {
        assert Kept(obj, Key(f));
        assert Normalised(obj)[Key(f)] == Stripped(obj)[Key(f)];
      }
    }
    if CanonicalObject(obj) {
      forall key | key in obj && Kept(obj, key) ensures Normal(obj, key) == obj[key] {
        if FieldOf(key).Some? { FieldOfKey(key); }
      }
      assert Normalised(obj) == Stripped(obj);
    }
  }

  lemma KeysInjective(f: Field, g: Field)
    ensures Key(f) == Key(g) <==> f == g
  {
    hide Key;
    KeysDistinct(f);
    KeysDistinct(g);
  }

  /** An entry with a single optional member decodes when the member reads. */
  lemma SingleMember(coin: string, protocol: Json, f: Field, j: Json) returns (obj: Object)
    requires Read(KindOf(f), j).Some?
    ensures obj == map["coin" := Str(coin), "protocol" := protocol, Key(f) := j]
    ensures Key(f) in obj && obj[Key(f)] == j && Decode(obj).Some?
  {
    hide Key;
    hide KindOf;
    hide Read;
    hide FieldOf;
    obj := map["coin" := Str(coin), "protocol" := protocol, Key(f) := j];
    KeysDistinct(f);
    hide ReadFields;
    assert "coin" in obj && obj["coin"] == Str(coin) && "protocol" in obj;
    forall g: Field ensures ReadOptional(obj, g).Some? {
      KeysDistinct(g);
      KeysInjective(f, g);
    }
    ReadFieldsAt(READ_ORDER, obj);
  }

  /** Numbers can really change: a fractional number of decimals is written back truncated. */
  lemma DecimalsTruncated() returns (obj: Object)
    ensures obj == map["coin" := Str("KMD"), "protocol" := Null, "decimals" := Float(1.5)]
    ensures Decode(obj).Some? && Encode(Decode(obj).value) != Stripped(obj)
    ensures Lookup(Encode(Decode(obj).value), "decimals") == Some(Int(1))
  {
    assert Key(Decimals) == "decimals" && KindOf(Decimals) == Whole;
    hide Key;
    hide KindOf;
    hide FieldOf;
    hide Decode;
    hide Encode;
    obj := SingleMember("KMD", Null, Decimals, Float(1.5));
    EncodeDecodeExactly(obj);
    DecodedMember(obj, Decimals);
    KeysDistinct(Decimals);
    EncodeAt(Decode(obj).value, "decimals");
  }

  /** Normalisation is idempotent: a second round trip changes nothing. */
  lemma NormalisedTwice(obj: Object)
    requires Decode(obj).Some?
    ensures Decode(Normalised(obj)) == Decode(obj)
    ensures Normalised(Normalised(obj)) == Normalised(obj)
  {
    hide Decode;
    hide Encode;
    hide Normalised;
    EncodeDecode(obj);
    DecodeEncode(Decode(obj).value);
    EncodeDecode(Normalised(obj));
  }
}
