/**
 * `SelectRelated.rc_info`: which related tables a layer's selection is
 * pushed to, and on which fields.
 *
 * For a layer over a feature class, every relationship class the layer
 * takes part in is looked up in its workspace: among the children of the
 * service description when the layer's path is a web address, otherwise by
 * existence in the local workspace. Missing and attachment relationship
 * classes are skipped. Each destination class other than the layer itself
 * gets the relationship's origin keys as a map from role to field
 * (`{'OriginPrimary': ..., 'OriginForeign': ...}`); a later relationship
 * naming the same destination overwrites an earlier one. On the hosted
 * branch the destination name is reduced to the layer id captured by the
 * pattern `L(\d+).*`, and a name without one raises IndexError.
 *
 * `arcpy.Describe` and `arcpy.Exists` are not called: their answers are the
 * fields of a `LayerDescription`.
 */
module Relationships {
  import opened Common
  import opened Literals

  /** What `arcpy.Describe` answers for a relationship class. */
  datatype RelationshipClass = RelationshipClass(
    name: string,
    isAttachmentRelationship: bool,
    destinationClassNames: seq<string>,
    originClassKeys: seq<(string, string)>)  // (field, role), as `originClassKeys` lists them

  /** What `arcpy.Describe(layer)` answers, with the relationship classes of the layer's workspace. */
  datatype LayerDescription = LayerDescription(
    featureClassDataType: Option<string>,   // `desc.FeatureClass.dataType`; None when there is no FeatureClass
    relationshipClassNames: seq<string>,
    path: string,
    name: string,
    serviceChildren: seq<RelationshipClass>,           // `describe_workspace(path.lower()).children`
    workspaceClasses: map<string, RelationshipClass>)  // relationship classes that `arcpy.Exists` in the local workspace, by name

  /** Role (`OriginPrimary`, `OriginForeign`) to field name. */
  type RoleMap = map<string, string>

  /** Destination table to the roles of the relationship that reaches it. */
  type RelInfo = map<string, RoleMap>

  /** `{cl_key[1]: cl_key[0] for cl_key in rc_desc.originClassKeys}` */
  function Roles(originClassKeys: seq<(string, string)>): RoleMap {
    FromPairs(seq(|originClassKeys|, i requires 0 <= i < |originClassKeys| =>
      (originClassKeys[i].1, originClassKeys[i].0)))
  }

  /** `{child.name: child for child in workspace_desc.children}` */
  function ChildLookup(children: seq<RelationshipClass>): map<string, RelationshipClass> {
    FromPairs(seq(|children|, i requires 0 <= i < |children| => (children[i].name, children[i])))
  }

  /** The longest prefix of decimal digits (`\d+`, greedy). */
  function DigitRun(s: string): (r: string)
    ensures |r| <= |s| && r == s[..|r|]
    ensures forall i :: 0 <= i < |r| ==> IsDigit(s[i])
    ensures |r| == |s| || !IsDigit(s[|r|])
  {
    if s == [] || !IsDigit(s[0]) then [] else [s[0]] + DigitRun(s[1..])
  }

  /** Position `p` starts a match of `L(\d+)`. */
  predicate LayerIdAt(s: string, p: int) {
    0 <= p && p + 1 < |s| && s[p] == 'L' && IsDigit(s[p + 1])
  }

  /**
   * `pattern.findall(name)[0]` for `L(\d+).*`: the digits after the first
   * `L` that is followed by a digit (the `.*` swallows the rest of the line,
   * so later matches never come first); None where findall returns [].
   */
  function LayerIdOf(s: string): Option<string> {
    if |s| < 2 then None
    else if s[0] == 'L' && IsDigit(s[1]) then Some(DigitRun(s[1..]))
    else LayerIdOf(s[1..])
  }

  /**
   * The layer id is found exactly when some `L` is followed by a digit; it is
   * then the whole digit run after the first such `L`.
   */
  lemma {:induction false} LayerIdOfSpec(s: string)
    ensures LayerIdOf(s).None? <==> forall p :: !LayerIdAt(s, p)
    ensures LayerIdOf(s).Some? ==>
      exists p :: LayerIdAt(s, p) && (forall q :: 0 <= q < p ==> !LayerIdAt(s, q))
                  && LayerIdOf(s).value == DigitRun(s[p + 1..])
  {
    if |s| >= 2 && !(s[0] == 'L' && IsDigit(s[1])) {
      var t := s[1..];
      LayerIdOfSpec(t);
      forall p ensures LayerIdAt(s, p + 1) <==> LayerIdAt(t, p) {
        if 0 <= p && p + 1 < |t| { assert s[p + 1] == t[p] && s[p + 2] == t[p + 1]; }
      }
      if LayerIdOf(t).None? {
        forall p ensures !LayerIdAt(s, p) {
          if p > 0 { assert !LayerIdAt(t, p - 1); }
        }
      } else {
        var p :| LayerIdAt(t, p) && (forall q :: 0 <= q < p ==> !LayerIdAt(t, q))
                 && LayerIdOf(t).value == DigitRun(t[p + 1..]);
        assert LayerIdAt(s, p + 1);
        assert t[p + 1..] == s[p + 2..];
        forall q | 0 <= q < p + 1 ensures !LayerIdAt(s, q) {
          if q > 0 { assert !LayerIdAt(t, q - 1); }
        }
      }
    } else if |s| >= 2 {
      assert LayerIdAt(s, 0);
    } else {
      forall p ensures !LayerIdAt(s, p) { }
    }
  }

  /** The name under which a destination is recorded; on the hosted branch its layer id. */
  function DestinationKey(hosted: bool, className: string): Result<string> {
    if !hosted then Ok(className)
    else match LayerIdOf(className)
      case None => Err(IndexError)
      case Some(id) => Ok(id)
  }

  /** The inner loop over `rc_desc.destinationClassNames`, in order. */
  function AddDestinations(info: RelInfo, dests: seq<string>, hosted: bool, selfName: string, roles: RoleMap)
    : Result<RelInfo>
  {
    if dests == [] then Ok(info)
    else match AddDestinations(info, dests[..|dests| - 1], hosted, selfName, roles)
      case Err(e) => Err(e)
      case Ok(acc) =>
        match DestinationKey(hosted, dests[|dests| - 1])
        case Err(e) => Err(e)
        case Ok(key) => if key == selfName then Ok(acc) else Ok(acc[key := roles])
  }

  /** A relationship class the outer loop does not skip. */
  predicate Considered(catalog: map<string, RelationshipClass>, name: string) {
    name in catalog && !catalog[name].isAttachmentRelationship
  }

  /** The outer loop over `desc.relationshipClassNames`, in order. */
  function AddRelationshipClasses(names: seq<string>, catalog: map<string, RelationshipClass>, hosted: bool,
                                  selfName: string): Result<RelInfo>
  {
    if names == [] then Ok(map[])
    else match AddRelationshipClasses(names[..|names| - 1], catalog, hosted, selfName)
      case Err(e) => Err(e)
      case Ok(acc) =>
        var name := names[|names| - 1];
        if !Considered(catalog, name) then Ok(acc)
        else
          AddDestinations(acc, catalog[name].destinationClassNames, hosted, selfName,
                          Roles(catalog[name].originClassKeys))
  }

  /** `str(desc.path).startswith('http')`: the layer comes from a hosted service. */
  predicate Hosted(desc: LayerDescription) {
    StartsWith(desc.path, "http")
  }

  /** Where the relationship classes of the layer's workspace are looked up. */
  function Catalog(desc: LayerDescription): map<string, RelationshipClass> {
    if Hosted(desc) then ChildLookup(desc.serviceChildren) else desc.workspaceClasses
  }

  /** What `rc_info(layer)` returns, or the exception it raises. */
  function RelatedClasses(desc: LayerDescription): Result<RelInfo> {
    if desc.featureClassDataType != Some("FeatureClass") then Ok(map[])
    else if desc.relationshipClassNames == [] then Ok(map[])
    else AddRelationshipClasses(desc.relationshipClassNames, Catalog(desc), Hosted(desc), desc.name)
  }

  /** `rc_info`: the nested loops with their `continue` guards. */
  method RcInfo(desc: LayerDescription) returns (r: Result<RelInfo>)
    ensures r == RelatedClasses(desc)
  {
    var rcClassInfo: RelInfo := map[];
    if desc.featureClassDataType != Some("FeatureClass") {
      return Ok(rcClassInfo);
    }
    if desc.relationshipClassNames == [] {
      return Ok(rcClassInfo);
    }
    var hosted := StartsWith(desc.path, "http");
    var catalog := if hosted then ChildLookup(desc.serviceChildren) else desc.workspaceClasses;
    var names := desc.relationshipClassNames;
    for i := 0 to |names|
      invariant AddRelationshipClasses(names[..i], catalog, hosted, desc.name) == Ok(rcClassInfo)
    {
      assert names[..i + 1][..i] == names[..i];
      var rcName := names[i];
      if rcName !in catalog {
        continue;
      }
      var rcDesc := catalog[rcName];
      if rcDesc.isAttachmentRelationship {
        continue;
      }
      var added := RecordDestinations(rcClassInfo, rcDesc.destinationClassNames, hosted, desc.name,
                                      Roles(rcDesc.originClassKeys));
      if added.Err? {
        AddRelationshipClassesFailed(names, catalog, hosted, desc.name, i + 1);
        return added;
      }
      rcClassInfo := added.value;
    }
    assert names[..|names|] == names;
    return Ok(rcClassInfo);
  }

  /** Lines 84-90 and 106-111: the inner loop, recording each destination of one relationship class with its roles. */
  method RecordDestinations(info: RelInfo, dests: seq<string>, hosted: bool, selfName: string, roles: RoleMap)
    returns (r: Result<RelInfo>)
    ensures r == AddDestinations(info, dests, hosted, selfName, roles)
  {
    var rcClassInfo := info;
    for j := 0 to |dests|
      invariant AddDestinations(info, dests[..j], hosted, selfName, roles) == Ok(rcClassInfo)
    {
      assert dests[..j + 1][..j] == dests[..j];
      var key := dests[j];
      if hosted {
        var layerId := LayerIdOf(key);
        if layerId.None? {
          AddDestinationsFailed(info, dests, j + 1, hosted, selfName, roles);
          return Err(IndexError);
        }
        key := layerId.value;
      }
      if key == selfName {
        continue;
      }
      rcClassInfo := rcClassInfo[key := roles];
    }
    assert dests[..|dests|] == dests;
    return Ok(rcClassInfo);
  }

  /** Once a destination raises, the rest of the loop does not run. */
  lemma {:induction false} AddDestinationsFailed(info: RelInfo, dests: seq<string>, k: nat, hosted: bool,
                                                selfName: string, roles: RoleMap)
    requires k <= |dests|
    requires AddDestinations(info, dests[..k], hosted, selfName, roles).Err?
    ensures AddDestinations(info, dests, hosted, selfName, roles)
            == AddDestinations(info, dests[..k], hosted, selfName, roles)
    decreases |dests| - k
  {
    if k < |dests| {
      assert dests[..k + 1][..k] == dests[..k];
      AddDestinationsFailed(info, dests, k + 1, hosted, selfName, roles);
    } else {
      assert dests[..k] == dests;
    }
  }

  lemma {:induction false} AddRelationshipClassesFailed(names: seq<string>, catalog: map<string, RelationshipClass>,
                                                       hosted: bool, selfName: string, k: nat)
    requires k <= |names|
    requires AddRelationshipClasses(names[..k], catalog, hosted, selfName).Err?
    ensures AddRelationshipClasses(names, catalog, hosted, selfName)
            == AddRelationshipClasses(names[..k], catalog, hosted, selfName)
    decreases |names| - k
  {
    if k < |names| {
      assert names[..k + 1][..k] == names[..k];
      AddRelationshipClassesFailed(names, catalog, hosted, selfName, k + 1);
    } else {
      assert names[..k] == names;
    }
  }

  /** Some destination of the list is recorded under `d`. */
  predicate Reaches(dests: seq<string>, hosted: bool, selfName: string, d: string) {
    exists j :: 0 <= j < |dests| && DestinationKey(hosted, dests[j]) == Ok(d) && d != selfName
  }

  /**
   * The destinations of one relationship class add exactly the destinations
   * they name (other than the layer itself), each mapped to that class's
   * roles; every other entry is kept.
   */
  lemma {:induction false} AddDestinationsEntries(info: RelInfo, dests: seq<string>, hosted: bool, selfName: string,
                                                 roles: RoleMap)
    requires AddDestinations(info, dests, hosted, selfName, roles).Ok?
    ensures var m := AddDestinations(info, dests, hosted, selfName, roles).value;
      && (forall d :: d in m <==> d in info || Reaches(dests, hosted, selfName, d))
      && (forall d :: d in m ==> m[d] == if Reaches(dests, hosted, selfName, d) then roles else info[d])
  {
    if dests != [] {
      var init := dests[..|dests| - 1];
      AddDestinationsEntries(info, init, hosted, selfName, roles);
      forall d ensures Reaches(dests, hosted, selfName, d)
                   <==> Reaches(init, hosted, selfName, d)
                        || (DestinationKey(hosted, dests[|dests| - 1]) == Ok(d) && d != selfName)
      {
        ReachesSnoc(dests, hosted, selfName, d);
      }
    }
  }

  lemma ReachesSnoc(dests: seq<string>, hosted: bool, selfName: string, d: string)
    requires dests != []
    ensures Reaches(dests, hosted, selfName, d)
            <==> Reaches(dests[..|dests| - 1], hosted, selfName, d)
                 || (DestinationKey(hosted, dests[|dests| - 1]) == Ok(d) && d != selfName)
  {
    var init := dests[..|dests| - 1];
    if Reaches(init, hosted, selfName, d) {
      var j :| 0 <= j < |init| && DestinationKey(hosted, init[j]) == Ok(d) && d != selfName;
      assert dests[j] == init[j];
    }
    if Reaches(dests, hosted, selfName, d) {
      var j :| 0 <= j < |dests| && DestinationKey(hosted, dests[j]) == Ok(d) && d != selfName;
      if j < |init| { assert init[j] == dests[j]; }
    }
  }

  /** One relationship class raises exactly when one of its destinations has no layer id. */
  lemma {:induction false} AddDestinationsError(info: RelInfo, dests: seq<string>, hosted: bool, selfName: string,
                                               roles: RoleMap)
    ensures AddDestinations(info, dests, hosted, selfName, roles).Err?
            <==> exists j :: 0 <= j < |dests| && DestinationKey(hosted, dests[j]).Err?
    ensures AddDestinations(info, dests, hosted, selfName, roles).Err? ==>
            AddDestinations(info, dests, hosted, selfName, roles).error == IndexError
  {
    if dests != [] {
      var init := dests[..|dests| - 1];
      AddDestinationsError(info, init, hosted, selfName, roles);
      if exists j :: 0 <= j < |init| && DestinationKey(hosted, init[j]).Err? {
        var j :| 0 <= j < |init| && DestinationKey(hosted, init[j]).Err?;
        assert dests[j] == init[j];
      }
      if exists j :: 0 <= j < |dests| && DestinationKey(hosted, dests[j]).Err? {
        var j :| 0 <= j < |dests| && DestinationKey(hosted, dests[j]).Err?;
        if j < |init| { assert init[j] == dests[j]; }
      }
    }
  }

  /** Relationship class `i` is looked at and records destination `d`. */
  predicate Contributes(names: seq<string>, catalog: map<string, RelationshipClass>, hosted: bool, selfName: string,
                        i: int, d: string) {
    0 <= i < |names| && Considered(catalog, names[i])
    && Reaches(catalog[names[i]].destinationClassNames, hosted, selfName, d)
  }

  /**
   * The result holds exactly the destinations some considered relationship
   * class records, each mapped to the roles of the last class that records it.
   */
  lemma AddRelationshipClassesEntries(names: seq<string>, catalog: map<string, RelationshipClass>,
                                      hosted: bool, selfName: string)
    requires AddRelationshipClasses(names, catalog, hosted, selfName).Ok?
    ensures var m := AddRelationshipClasses(names, catalog, hosted, selfName).value;
      && (forall d :: d in m <==> exists i :: Contributes(names, catalog, hosted, selfName, i, d))
      && (forall d, i :: Contributes(names, catalog, hosted, selfName, i, d)
                         && (forall i' :: i < i' < |names| ==> !Contributes(names, catalog, hosted, selfName, i', d))
                         ==> m[d] == Roles(catalog[names[i]].originClassKeys))
  {
    AddRelationshipClassesKeys(names, catalog, hosted, selfName);
    AddRelationshipClassesLast(names, catalog, hosted, selfName);
  }

  /** A class of the first `|names| - 1` contributes exactly when it does among them. */
  lemma ContributesInit(names: seq<string>, catalog: map<string, RelationshipClass>, hosted: bool, selfName: string)
    requires names != []
    ensures forall i, d :: 0 <= i < |names| - 1 ==>
      (Contributes(names, catalog, hosted, selfName, i, d) <==> Contributes(names[..|names| - 1], catalog, hosted, selfName, i, d))
  {
    var init := names[..|names| - 1];
    forall i, d | 0 <= i < |init|
      ensures Contributes(names, catalog, hosted, selfName, i, d) <==> Contributes(init, catalog, hosted, selfName, i, d)
    {
      assert names[i] == init[i];
    }
  }

  /** The last relationship class overwrites the destinations it records and keeps the rest. */
  lemma AddRelationshipClassesStep(names: seq<string>, catalog: map<string, RelationshipClass>, hosted: bool,
                                   selfName: string)
    requires names != [] && AddRelationshipClasses(names, catalog, hosted, selfName).Ok?
    ensures AddRelationshipClasses(names[..|names| - 1], catalog, hosted, selfName).Ok?
    ensures var acc := AddRelationshipClasses(names[..|names| - 1], catalog, hosted, selfName).value;
      var m := AddRelationshipClasses(names, catalog, hosted, selfName).value;
      var last := |names| - 1;
      && (forall d :: d in m <==> d in acc || Contributes(names, catalog, hosted, selfName, last, d))
      && (forall d :: d in m ==>
            m[d] == if Contributes(names, catalog, hosted, selfName, last, d)
                    then Roles(catalog[names[last]].originClassKeys) else acc[d])
  {
    var last := |names| - 1;
    var acc := AddRelationshipClasses(names[..last], catalog, hosted, selfName).value;
    if Considered(catalog, names[last]) {
      var rc := catalog[names[last]];
      AddDestinationsEntries(acc, rc.destinationClassNames, hosted, selfName, Roles(rc.originClassKeys));
    }
  }

  lemma {:induction false} AddRelationshipClassesKeys(names: seq<string>, catalog: map<string, RelationshipClass>,
                                                     hosted: bool, selfName: string)
    requires AddRelationshipClasses(names, catalog, hosted, selfName).Ok?
    ensures var m := AddRelationshipClasses(names, catalog, hosted, selfName).value;
      forall d :: d in m <==> exists i :: Contributes(names, catalog, hosted, selfName, i, d)
  {
    if names != [] {
      var init := names[..|names| - 1];
      var last := |names| - 1;
      AddRelationshipClassesStep(names, catalog, hosted, selfName);
      AddRelationshipClassesKeys(init, catalog, hosted, selfName);
      var acc := AddRelationshipClasses(init, catalog, hosted, selfName).value;
      var m := AddRelationshipClasses(names, catalog, hosted, selfName).value;
      ContributesInit(names, catalog, hosted, selfName);
      forall d ensures d in m <==> exists i :: Contributes(names, catalog, hosted, selfName, i, d) {
        if d in m {
          if !Contributes(names, catalog, hosted, selfName, last, d) {
            assert d in acc;
            var i :| Contributes(init, catalog, hosted, selfName, i, d);
            assert Contributes(names, catalog, hosted, selfName, i, d);
          }
        }
        if exists i :: Contributes(names, catalog, hosted, selfName, i, d) {
          var i :| Contributes(names, catalog, hosted, selfName, i, d);
          if i < last { assert Contributes(init, catalog, hosted, selfName, i, d); }
        }
      }
    }
  }

  lemma {:induction false} AddRelationshipClassesLast(names: seq<string>, catalog: map<string, RelationshipClass>,
                                                     hosted: bool, selfName: string)
    requires AddRelationshipClasses(names, catalog, hosted, selfName).Ok?
    ensures var m := AddRelationshipClasses(names, catalog, hosted, selfName).value;
      forall d, i :: Contributes(names, catalog, hosted, selfName, i, d)
                     && (forall i' :: i < i' < |names| ==> !Contributes(names, catalog, hosted, selfName, i', d))
                     ==> d in m && m[d] == Roles(catalog[names[i]].originClassKeys)
  {
    if names != [] {
      var init := names[..|names| - 1];
      var last := |names| - 1;
      AddRelationshipClassesStep(names, catalog, hosted, selfName);
      AddRelationshipClassesLast(init, catalog, hosted, selfName);
      var acc := AddRelationshipClasses(init, catalog, hosted, selfName).value;
      var m := AddRelationshipClasses(names, catalog, hosted, selfName).value;
      ContributesInit(names, catalog, hosted, selfName);
      forall d, i | Contributes(names, catalog, hosted, selfName, i, d)
                    && (forall i' :: i < i' < |names| ==> !Contributes(names, catalog, hosted, selfName, i', d))
        ensures d in m && m[d] == Roles(catalog[names[i]].originClassKeys)
      {
        if i < last {
          LastContributorInit(names, init, catalog, hosted, selfName, i, d);
        }
      }
    }
  }

  /** A last contributor before the last class is the last contributor among the classes before it. */
  lemma LastContributorInit(names: seq<string>, init: seq<string>, catalog: map<string, RelationshipClass>,
                            hosted: bool, selfName: string, i: int, d: string)
    requires names != [] && init == names[..|names| - 1] && 0 <= i < |init|
    requires Contributes(names, catalog, hosted, selfName, i, d)
    requires forall i' :: i < i' < |names| ==> !Contributes(names, catalog, hosted, selfName, i', d)
    ensures !Contributes(names, catalog, hosted, selfName, |init|, d)
    ensures Contributes(init, catalog, hosted, selfName, i, d)
    ensures forall i' :: i < i' < |init| ==> !Contributes(init, catalog, hosted, selfName, i', d)
    ensures init[i] == names[i]
  {
    ContributesInit(names, catalog, hosted, selfName);
    forall i' | i < i' < |init| ensures !Contributes(init, catalog, hosted, selfName, i', d) {
      assert !Contributes(names, catalog, hosted, selfName, i', d);
    }
  }

  /** Relationship class `i` is looked at and one of its destinations has no layer id. */
  predicate Fails(names: seq<string>, catalog: map<string, RelationshipClass>, hosted: bool, i: int) {
    0 <= i < |names| && Considered(catalog, names[i])
    && exists j :: 0 <= j < |catalog[names[i]].destinationClassNames|
                   && DestinationKey(hosted, catalog[names[i]].destinationClassNames[j]).Err?
  }

  /** The loops raise IndexError exactly when some considered class has a destination without a layer id. */
  lemma {:induction false} AddRelationshipClassesError(names: seq<string>, catalog: map<string, RelationshipClass>,
                                                      hosted: bool, selfName: string)
    ensures AddRelationshipClasses(names, catalog, hosted, selfName).Err?
            <==> exists i :: Fails(names, catalog, hosted, i)
    ensures AddRelationshipClasses(names, catalog, hosted, selfName).Err? ==>
            AddRelationshipClasses(names, catalog, hosted, selfName).error == IndexError
  {
    if names != [] {
      var init := names[..|names| - 1];
      var last := |names| - 1;
      AddRelationshipClassesError(init, catalog, hosted, selfName);
      forall i | 0 <= i < |init| ensures Fails(names, catalog, hosted, i) <==> Fails(init, catalog, hosted, i) {
        assert names[i] == init[i];
      }
      assert (exists i :: Fails(names, catalog, hosted, i))
             <==> (exists i :: Fails(init, catalog, hosted, i)) || Fails(names, catalog, hosted, last) by {
        if exists i :: Fails(names, catalog, hosted, i) {
          var i :| Fails(names, catalog, hosted, i);
          if i < last { assert Fails(init, catalog, hosted, i); }
        }
        if exists i :: Fails(init, catalog, hosted, i) {
          var i :| Fails(init, catalog, hosted, i);
          assert Fails(names, catalog, hosted, i);
        }
      }
      var r := AddRelationshipClasses(init, catalog, hosted, selfName);
      if r.Ok? && Considered(catalog, names[last]) {
        var rc := catalog[names[last]];
        AddDestinationsError(r.value, rc.destinationClassNames, hosted, selfName, Roles(rc.originClassKeys));
      }
    }
  }

  /**
   * `rc_info` as a whole: no relationships for anything but a feature class
   * with relationship class names; only the hosted branch can raise, and only
   * IndexError, exactly when a considered destination has no layer id; the
   * layer never relates to itself; and the entries are those of
   * AddRelationshipClassesEntries.
   */
  lemma RelatedClassesSpec(desc: LayerDescription)
    ensures desc.featureClassDataType != Some("FeatureClass") ==> RelatedClasses(desc) == Ok(map[])
    ensures desc.relationshipClassNames == [] ==> RelatedClasses(desc) == Ok(map[])
    ensures RelatedClasses(desc).Err? <==>
      desc.featureClassDataType == Some("FeatureClass") && Hosted(desc)
      && exists i :: Fails(desc.relationshipClassNames, Catalog(desc), true, i)
    ensures RelatedClasses(desc).Err? ==> RelatedClasses(desc).error == IndexError
    ensures RelatedClasses(desc).Ok? ==> desc.name !in RelatedClasses(desc).value
    ensures RelatedClasses(desc).Ok? && desc.featureClassDataType == Some("FeatureClass") ==>
      forall d :: d in RelatedClasses(desc).value <==>
        exists i :: Contributes(desc.relationshipClassNames, Catalog(desc), Hosted(desc), desc.name, i, d)
  {
    var names := desc.relationshipClassNames;
    AddRelationshipClassesError(names, Catalog(desc), Hosted(desc), desc.name);
    if !Hosted(desc) {
      forall i ensures !Fails(names, Catalog(desc), false, i) { }
    }
    if desc.featureClassDataType == Some("FeatureClass") && names != []
       && AddRelationshipClasses(names, Catalog(desc), Hosted(desc), desc.name).Ok? {
      AddRelationshipClassesEntries(names, Catalog(desc), Hosted(desc), desc.name);
    }
    if names == [] {
      forall i ensures !Fails(names, Catalog(desc), Hosted(desc), i) { }
    }
  }
}
