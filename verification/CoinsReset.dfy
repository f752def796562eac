/** Resetting the coins file: the shipped defaults, with the user's active coins switched on again. */
module CoinsReset {
  import opened Wrappers
  import opened JsonValues

  /** The test of an entry's flag; `None` is an exception. */
  function ActiveFlag(entry: Json): Option<bool> {
    if entry.Obj? then GetBool(Lookup(entry.fields, "active")) else None
  }

  /** Subscripting creates an object out of null, and throws on anything else that is not an object. */
  function Activated(entry: Json): Option<Json> {
    match entry
    case Obj(fields) => Some(Obj(fields["active" := Bool(true)]))
    case Null => Some(Obj(map["active" := Bool(true)]))
    case _ => None
  }

  /** An exception while activating an entry is caught and skips it. */
  function ActivatedIf(active: bool, entry: Json): Json {
    if active && Activated(entry).Some? then Activated(entry).value else entry
  }

  /** The merged file, key by key. */
  function Merged(previous: Object, shipped: Object): Object {
    map key | key in shipped :: ActivatedIf(key in previous && ActiveFlag(previous[key]) == Some(true), shipped[key])
  }

  /** The first loop; `None` is the exception for an entry without a boolean flag. */
  method ActiveCoins(file: Object) returns (r: Option<set<string>>)
    ensures r.Some? <==> forall key :: key in file ==> ActiveFlag(file[key]).Some?
    ensures r.Some? ==> forall key :: key in r.value <==> key in file && ActiveFlag(file[key]) == Some(true)
  {
    hide ActiveFlag;
    var active: set<string> := {};
    var todo := file.Keys;
    while todo != {}
      invariant todo <= file.Keys
      invariant forall key :: key in file && key !in todo ==> ActiveFlag(file[key]).Some?
      invariant forall key :: key in active <==> key in file && key !in todo && ActiveFlag(file[key]) == Some(true)
      decreases |todo|
    {
      var key :| key in todo;
      var flag := ActiveFlag(file[key]);
      if flag.None? {
        return None;
      }
      if flag.value {
        active := active + {key};
      }
      todo := todo - {key};
    }
    r := Some(active);
  }

  /** The second loop, over the collected keys in arbitrary order. */
  method ActivateAll(shipped: Object, active: set<string>) returns (out: Object)
    ensures out.Keys == shipped.Keys
    ensures forall key :: key in shipped ==> out[key] == ActivatedIf(key in active, shipped[key])
  {
    hide Activated;
    out := shipped;
    var todo := active;
    while todo != {}
      invariant todo <= active && out.Keys == shipped.Keys
      invariant forall key :: key in shipped ==> out[key] == ActivatedIf(key in active && key !in todo, shipped[key])
      decreases |todo|
    {
      var key :| key in todo;
      todo := todo - {key};
      if key in out {
        var entry := Activated(out[key]);
        if entry.Some? {
          out := out[key := entry.value];
        }
      }
    }
  }

  /** Puts the shipped file in place of the old one with the old file's active coins switched on. */
  method Reset(previous: Object, shipped: Object) returns (r: Option<Object>)
    ensures r.Some? <==> WellFormed(previous)
    ensures r.Some? <==> forall key :: key in previous ==>
              previous[key].Obj? && "active" in previous[key].fields && previous[key].fields["active"].Bool?
    ensures r.Some? ==> r.value == Merged(previous, shipped)
  {
    var active := ActiveCoins(previous);
    if active.None? {
      return None;
    }
    var out := ActivateAll(shipped, active.value);
    r := Some(out);
  }

  /** A coins file as shipped: every entry is an object with a boolean flag. */
  ghost predicate WellFormed(file: Object) {
    forall key :: key in file ==> ActiveFlag(file[key]).Some?
  }

  ghost predicate IsActive(file: Object, key: string) {
    key in file && ActiveFlag(file[key]) == Some(true)
  }

  /** The fields of an entry other than the flag. */
  function OtherFields(entry: Json): Object {
    if entry.Obj? then entry.fields - {"active"} else map[]
  }

  /**
   * The merged file without the terms it is defined by: an entry shipped as an object or null is switched on
   * when the old file had it switched on; everything else is as shipped.
   */
  lemma MergedExactly(previous: Object, shipped: Object, key: string)
    requires key in shipped
    ensures var before := key in previous && previous[key].Obj? && "active" in previous[key].fields
                          && previous[key].fields["active"] == Bool(true);
            && key in Merged(previous, shipped)
            && Merged(previous, shipped)[key] ==
               if before && shipped[key].Obj? then Obj(shipped[key].fields["active" := Bool(true)])
               else if before && shipped[key].Null? then Obj(map["active" := Bool(true)])
               else shipped[key]
  {
  }

  /** Exactly the shipped coins, active when shipped active or active before, otherwise as shipped. */
  lemma MergedMeaning(previous: Object, shipped: Object)
    requires WellFormed(shipped)
    ensures WellFormed(Merged(previous, shipped))
    ensures Merged(previous, shipped).Keys == shipped.Keys
    ensures forall key :: key in shipped ==>
              (IsActive(Merged(previous, shipped), key) <==> IsActive(shipped, key) || IsActive(previous, key))
    ensures forall key :: key in shipped ==> OtherFields(Merged(previous, shipped)[key]) == OtherFields(shipped[key])
  {
    forall key | key in shipped
      ensures ActiveFlag(Merged(previous, shipped)[key]).Some?
      ensures IsActive(Merged(previous, shipped), key) <==> IsActive(shipped, key) || IsActive(previous, key)
      ensures OtherFields(Merged(previous, shipped)[key]) == OtherFields(shipped[key])
    {
      assert shipped[key].fields["active" := Bool(true)] - {"active"} == shipped[key].fields - {"active"};
    }
  }

  /** Flags and other fields determine an entry. */
  lemma SameEntry(a: Json, b: Json)
    requires a.Obj? && b.Obj? && ActiveFlag(a) == ActiveFlag(b) && ActiveFlag(a).Some?
    requires OtherFields(a) == OtherFields(b)
    ensures a == b
  {
    assert a.fields == OtherFields(a)["active" := a.fields["active"]];
    assert b.fields == OtherFields(b)["active" := b.fields["active"]];
  }

  /** Resetting twice with the same defaults is resetting once. */
  lemma MergedTwice(previous: Object, shipped: Object)
    requires WellFormed(shipped)
    ensures Merged(Merged(previous, shipped), shipped) == Merged(previous, shipped)
  {
    var once := Merged(previous, shipped);
    var twice := Merged(once, shipped);
    MergedMeaning(previous, shipped);
    MergedMeaning(once, shipped);
    forall key | key in shipped ensures once[key] == twice[key] {
      assert IsActive(once, key) <==> IsActive(twice, key);
      SameEntry(once[key], twice[key]);
    }
  }

  function Deactivated(entry: Json): Option<Json> {
    match entry
    case Obj(fields) => Some(Obj(fields["active" := Bool(false)]))
    case Null => Some(Obj(map["active" := Bool(false)]))
    case _ => None
  }

  lemma DeactivatedMeaning(entry: Json)
    ensures Deactivated(entry).Some? <==> entry.Obj? || entry.Null?
    ensures entry.Obj? ==> Deactivated(entry) == Some(Obj(entry.fields["active" := Bool(false)]))
    ensures Deactivated(entry).Some? ==>
              && ActiveFlag(Deactivated(entry).value) == Some(false)
              && OtherFields(Deactivated(entry).value) == OtherFields(entry)
  {
    if entry.Obj? {
      assert entry.fields["active" := Bool(false)] - {"active"} == entry.fields - {"active"};
    }
  }

  /** Custom tokens keep everything but their flags, which are all switched off. */
  method ResetCustomTokens(custom: Object) returns (r: Option<Object>)
    ensures r.Some? <==> forall key :: key in custom ==> custom[key].Obj? || custom[key].Null?
    ensures r.Some? ==> r.value.Keys == custom.Keys
    ensures r.Some? ==> forall key :: key in custom ==>
              ActiveFlag(r.value[key]) == Some(false) && OtherFields(r.value[key]) == OtherFields(custom[key])
    ensures r.Some? ==> forall key :: key in custom && custom[key].Obj? ==>
              r.value[key] == Obj(custom[key].fields["active" := Bool(false)])
  {
    hide ActiveFlag;
    hide OtherFields;
    hide Deactivated;
    var out := custom;
    var todo := custom.Keys;
    forall key | key in custom { DeactivatedMeaning(custom[key]); }
    while todo != {}
      invariant todo <= custom.Keys && out.Keys == custom.Keys
      invariant forall key :: key in todo ==> out[key] == custom[key]
      invariant forall key :: key in custom && key !in todo ==> Some(out[key]) == Deactivated(custom[key])
      decreases |todo|
    {
      var key :| key in todo;
      todo := todo - {key};
      var entry := Deactivated(out[key]);
      if entry.None? {
        return None;
      }
      out := out[key := entry.value];
    }
    r := Some(out);
  }
}
