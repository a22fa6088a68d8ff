/**
 * The configuration tree the engine walks (the `cnode` tree built by the cutils text
 * parser) and `parseChildren`, which reads the attribute children of one criterion or
 * rogue-parameter entry.
 */
module ConfigTree {
  import opened Wrappers
  import opened MappingTable

  /** One node: its name, its value and its children in file order. */
  datatype Node = Node(name: string, value: string, children: seq<Node>)

  /*
   * Node names. The strings themselves are defined in AudioHalConf.hpp, which is not part
   * of this model; only the fact that they differ from each other matters here.
   */
  const CommonConfTag := "Common"
  const AudioConfTag := "Audio"
  const RouteConfTag := "Route"
  const InclusiveCriterionTypeTag := "InclusiveCriterionType"
  const ExclusiveCriterionTypeTag := "ExclusiveCriterionType"
  const CriterionTag := "Criterion"
  const RogueParameterTag := "RogueParameter"
  const PathTag := "Path"
  const ParameterDefaultTag := "Default"
  const AndroidParameterTag := "Parameter"
  const MappingTableTag := "Mapping"
  const TypeTag := "Type"

  /** Position of the last child with the given name (`config_find` keeps the newest match). */
  function LastIndexOf(children: seq<Node>, tag: string): (r: Option<nat>)
    ensures r.Some? ==> r.value < |children| && children[r.value].name == tag
    ensures r.Some? ==> forall j :: r.value < j < |children| ==> children[j].name != tag
    ensures r.None? ==> forall j :: 0 <= j < |children| ==> children[j].name != tag
  {
    if children == [] then None
    else if children[|children| - 1].name == tag then Some(|children| - 1)
    else LastIndexOf(children[..|children| - 1], tag)
  }

  /** `config_find(root, tag)`: the last child of `root` with that name, if any. */
  function Find(root: Node, tag: string): Option<Node>
  {
    match LastIndexOf(root.children, tag)
    case None => None
    case Some(i) => Some(root.children[i])
  }

  /** The attributes `parseChildren` fills in; every caller starts them empty. */
  datatype Fields = Fields(path: string, defaultValue: string, key: string, typeName: string,
                           mapping: seq<MappingPair>)

  const NoFields := Fields("", "", "", "", [])

  /**
   * One child: a recognised name overwrites its attribute, a mapping table is parsed
   * (None when it is malformed, a fatal assertion), any other name is only logged.
   */
  function ReadChild(f: Fields, child: Node): Option<Fields>
  {
    if child.name == PathTag then Some(f.(path := child.value))
    else if child.name == ParameterDefaultTag then Some(f.(defaultValue := child.value))
    else if child.name == AndroidParameterTag then Some(f.(key := child.value))
    else if child.name == MappingTableTag then
      match MappingPairs(child.value)
      case None => None
      case Some(ps) => Some(f.(mapping := ps))
    else if child.name == TypeTag then Some(f.(typeName := child.value))
    else Some(f)
  }

  /** The attributes after reading the given children in order. */
  function ChildFields(children: seq<Node>): Option<Fields>
  {
    if children == [] then Some(NoFields)
    else
      match ChildFields(children[..|children| - 1])
      case None => None
      case Some(f) => ReadChild(f, children[|children| - 1])
  }

  /** The loop over the children of an entry. */
  method ParseChildren(root: Node) returns (r: Option<Fields>)
    ensures r == ChildFields(root.children)
  {
    var children := root.children;
    var f := NoFields;
    var i := 0;
    while i < |children|
      invariant 0 <= i <= |children|
      invariant ChildFields(children[..i]) == Some(f)
    {
      assert children[..i + 1][..i] == children[..i];
      var next := ReadChild(f, children[i]);
      if next.None? {
        RejectedPrefix(children, i + 1);
        return None;
      }
      f := next.value;
      i := i + 1;
    }
    assert children[..i] == children;
    return Some(f);
  }

  lemma {:induction false} RejectedPrefix(children: seq<Node>, n: nat)
    requires n <= |children|
    requires ChildFields(children[..n]) == None
    ensures ChildFields(children) == None
    decreases |children| - n
  {
    if n < |children| {
      assert children[..n + 1][..n] == children[..n];
      RejectedPrefix(children, n + 1);
    } else {
      assert children[..n] == children;
    }
  }

  /** The value of the last child with the given name, or "" when there is none. */
  function LastValue(children: seq<Node>, tag: string): string
  {
    match LastIndexOf(children, tag)
    case None => ""
    case Some(i) => children[i].value
  }

  /** Every mapping-table child of the entry is well formed. */
  predicate MappingsParse(children: seq<Node>)
  {
    forall k :: 0 <= k < |children| && children[k].name == MappingTableTag ==>
      MappingPairs(children[k].value).Some?
  }

  /** Reading the children succeeds exactly when every mapping table among them parses. */
  lemma {:induction false} ChildFieldsOkIff(children: seq<Node>)
    ensures ChildFields(children).Some? <==> MappingsParse(children)
  {
    if children != [] {
      var n := |children| - 1;
      ChildFieldsOkIff(children[..n]);
      assert forall k :: 0 <= k < n ==> children[..n][k] == children[k];
    }
  }

  /** The mapping table of the last mapping child, or the empty table when there is none. */
  function LastMapping(children: seq<Node>): seq<MappingPair>
  {
    match LastIndexOf(children, MappingTableTag)
    case None => []
    case Some(i) => match MappingPairs(children[i].value) case None => [] case Some(ps) => ps
  }

  lemma LastValueStep(children: seq<Node>, tag: string)
    requires children != []
    ensures var n := |children| - 1;
      LastValue(children, tag) == if children[n].name == tag then children[n].value else LastValue(children[..n], tag)
  {
  }

  lemma LastMappingStep(children: seq<Node>)
    requires children != []
    ensures var n := |children| - 1;
      LastMapping(children) == if children[n].name == MappingTableTag then LastMapping([children[n]]) else LastMapping(children[..n])
  {
    assert LastIndexOf([children[|children| - 1]], MappingTableTag) == if children[|children| - 1].name == MappingTableTag then Some(0) else None;
  }

  /**
   * When reading succeeds, each attribute is the value of the last child carrying its
   * name (the child `config_find` would pick), "" when there is none, and the mapping is
   * the table of the last mapping child.
   */
  lemma {:induction false} LastChildWins(children: seq<Node>)
    requires ChildFields(children).Some?
    ensures var f := ChildFields(children).value;
      && f.path == LastValue(children, PathTag)
      && f.defaultValue == LastValue(children, ParameterDefaultTag)
      && f.key == LastValue(children, AndroidParameterTag)
      && f.typeName == LastValue(children, TypeTag)
      && f.mapping == LastMapping(children)
  {
    if children != [] {
      var n := |children| - 1;
      var front := children[..n];
      LastChildWins(front);
      LastValueStep(children, PathTag);
      LastValueStep(children, ParameterDefaultTag);
      LastValueStep(children, AndroidParameterTag);
      LastValueStep(children, TypeTag);
      LastMappingStep(children);
    }
  }
}
