/**
 Material modules: what the render world accepts as a generated material, which artifact the
 renderer selects for it, and that a selected artifact always packs and can always be written.
 */
module MaterialModules {
  import opened Wrappers
  import opened Injections
  import opened ParameterBlocks
  import opened ParameterUploads
  import opened DescriptorContents
  import opened MaterialDescriptors
  import P = MaterialPacking

  // ------------------------------------------------------------ Names

  function ParameterNames(es: seq<ParameterLayout>): (names: seq<string>)
    ensures |names| == |es| && forall i :: 0 <= i < |es| ==> names[i] == es[i].name
  {
    seq(|es|, i requires 0 <= i < |es| => es[i].name)
  }

  function ResourceNames(es: seq<ResourceLayout>): (names: seq<string>)
    ensures |names| == |es| && forall i :: 0 <= i < |es| ==> names[i] == es[i].name
  {
    seq(|es|, i requires 0 <= i < |es| => es[i].name)
  }

  function EntryNames(es: seq<P.Entry>): (names: seq<string>)
    ensures |names| == |es| && forall i :: 0 <= i < |es| ==> names[i] == es[i].name
  {
    seq(|es|, i requires 0 <= i < |es| => es[i].name)
  }

  function StateNames(es: seq<ResourceState>): (names: seq<string>)
    ensures |names| == |es| && forall i :: 0 <= i < |es| ==> names[i] == es[i].name
  {
    seq(|es|, i requires 0 <= i < |es| => es[i].name)
  }

  function BindingNames(es: seq<P.Binding>): (names: seq<string>)
    ensures |names| == |es| && forall i :: 0 <= i < |es| ==> names[i] == es[i].name
  {
    seq(|es|, i requires 0 <= i < |es| => es[i].name)
  }

  function ResourceBindingNames(es: seq<ResourceBinding>): (names: seq<string>)
    ensures |names| == |es| && forall i :: 0 <= i < |es| ==> names[i] == es[i].name
  {
    seq(|es|, i requires 0 <= i < |es| => es[i].name)
  }

  // ------------------------------------------------------------ What the render world accepts

  /** Parameters have values, not resources, and at least one. */
  predicate ParameterDeclared(e: ParameterLayout) {
    e.name != "" && e.arraySize != 0 && P.PackedSize(e.valueType).Some?
  }

  predicate ResourceDeclared(e: ResourceLayout) {
    e.name != "" && e.arraySize != 0 && !e.resourceType.OtherResource?
  }

  /** The state of one parameter fits its declaration. */
  predicate ParameterStated(v: P.Entry, e: ParameterLayout) {
    v.name == e.name && v.valueType == e.valueType && |v.values| == e.arraySize && AllEncodable(v.values, v.valueType)
  }

  /** A texture where one is needed, a sampler where one is needed, and nothing else. */
  predicate ValueStated(v: ResourceValue, t: ResourceType) {
    v.texture.Some? == HasTexture(t) && v.sampler.Some? == HasSampler(t)
  }

  predicate ResourceStated(v: ResourceState, e: ResourceLayout) {
    && v.name == e.name && v.resourceType == e.resourceType && |v.values| == e.arraySize
    && forall i :: 0 <= i < |v.values| ==> ValueStated(v.values[i], v.resourceType)
  }

  /** Declarations with distinct names, and a state for every one of them and nothing else. */
  ghost predicate Validated(m: MaterialRecord) {
    match m.generated
    case None => m.parameters == [] && m.resources == []
    case Some(g) =>
      && (forall i :: 0 <= i < |g.parameters| ==> ParameterDeclared(g.parameters[i]))
      && (forall i :: 0 <= i < |g.resources| ==> ResourceDeclared(g.resources[i]))
      && Distinct(ParameterNames(g.parameters)) && Distinct(ResourceNames(g.resources))
      && ParametersStated(m.parameters, g.parameters) && ResourcesStated(m.resources, g.resources)
  }

  predicate StatedSomewhere(v: P.Entry, declared: seq<ParameterLayout>) {
    exists k :: 0 <= k < |declared| && ParameterStated(v, declared[k])
  }

  predicate ResourceStatedSomewhere(v: ResourceState, declared: seq<ResourceLayout>) {
    exists k :: 0 <= k < |declared| && ResourceStated(v, declared[k])
  }

  ghost predicate ParametersStated(state: seq<P.Entry>, declared: seq<ParameterLayout>) {
    && |state| == |declared| && Distinct(EntryNames(state))
    && forall i :: 0 <= i < |state| ==> StatedSomewhere(state[i], declared)
  }

  ghost predicate ResourcesStated(state: seq<ResourceState>, declared: seq<ResourceLayout>) {
    && |state| == |declared| && Distinct(StateNames(state))
    && forall i :: 0 <= i < |state| ==> ResourceStatedSomewhere(state[i], declared)
  }

  /** In the record's own fields: named declarations of at least one value, parameters of no
      resource type; no name twice; as many states as declarations, each with the type and the
      number of values of a declaration of its name; values of that type, and textures and
      samplers exactly where the type needs them. */
  ghost predicate Accepts(m: MaterialRecord) {
    match m.generated
    case None => m.parameters == [] && m.resources == []
    case Some(g) =>
      && (forall i :: 0 <= i < |g.parameters| ==> NamesValues(g.parameters[i]))
      && (forall i :: 0 <= i < |g.resources| ==>
            g.resources[i].name != "" && g.resources[i].arraySize != 0 && !g.resources[i].resourceType.OtherResource?)
      && (forall i, j :: 0 <= i < j < |g.parameters| ==> g.parameters[i].name != g.parameters[j].name)
      && (forall i, j :: 0 <= i < j < |g.resources| ==> g.resources[i].name != g.resources[j].name)
      && |m.parameters| == |g.parameters| && |m.resources| == |g.resources|
      && (forall i, j :: 0 <= i < j < |m.parameters| ==> m.parameters[i].name != m.parameters[j].name)
      && (forall i, j :: 0 <= i < j < |m.resources| ==> m.resources[i].name != m.resources[j].name)
      && (forall i :: 0 <= i < |m.parameters| ==> HasDeclaration(m.parameters[i], g.parameters))
      && (forall i :: 0 <= i < |m.resources| ==> HasResourceDeclaration(m.resources[i], g.resources))
  }

  predicate NamesValues(e: ParameterLayout) {
    && e.name != "" && e.arraySize != 0
    && !e.valueType.Texture2D? && !e.valueType.Sampler? && !e.valueType.CombinedTextureSampler?
  }

  predicate HasDeclaration(v: P.Entry, declared: seq<ParameterLayout>) {
    && (exists k ::
          && 0 <= k < |declared| && declared[k].name == v.name && declared[k].valueType == v.valueType
          && declared[k].arraySize == |v.values|)
    && forall i :: 0 <= i < |v.values| ==> P.OfType(v.values[i], v.valueType)
  }

  predicate HasResourceDeclaration(v: ResourceState, declared: seq<ResourceLayout>) {
    && (exists k :: 0 <= k < |declared| && declared[k] == ResourceLayout(v.name, v.resourceType, |v.values|))
    && forall i :: 0 <= i < |v.values| ==>
         && (v.values[i].texture.Some? <==> v.resourceType.TextureResource? || v.resourceType.CombinedResource?)
         && (v.values[i].sampler.Some? <==> v.resourceType.SamplerResource? || v.resourceType.CombinedResource?)
  }

  lemma ValidatedExactly(m: MaterialRecord)
    ensures Validated(m) <==> Accepts(m)
  {
    hide ParameterDeclared, NamesValues, StatedSomewhere, HasDeclaration, ResourceStatedSomewhere,
      HasResourceDeclaration;
    if m.generated.Some? {
      var g := m.generated.value;
      forall e: ParameterLayout ensures ParameterDeclared(e) <==> NamesValues(e) {
        DeclaredExactly(e);
      }
      forall v: P.Entry ensures StatedSomewhere(v, g.parameters) <==> HasDeclaration(v, g.parameters) {
        StatedExactly(v, g.parameters);
      }
      forall v: ResourceState
        ensures ResourceStatedSomewhere(v, g.resources) <==> HasResourceDeclaration(v, g.resources)
      {
        ResourceStatedExactly(v, g.resources);
      }
    }
  }

  lemma DeclaredExactly(e: ParameterLayout)
    ensures ParameterDeclared(e) <==> NamesValues(e)
  {
  }

  lemma StatedExactly(v: P.Entry, declared: seq<ParameterLayout>)
    ensures StatedSomewhere(v, declared) <==> HasDeclaration(v, declared)
  {
    hide P.Encoded, P.OfType;
    forall i | 0 <= i < |v.values|
      ensures P.Encoded(v.values[i], v.valueType).Some? <==> P.OfType(v.values[i], v.valueType)
    {
      P.EncodableExactly(v.values[i], v.valueType);
    }
    if HasDeclaration(v, declared) {
      var k :| && 0 <= k < |declared| && declared[k].name == v.name && declared[k].valueType == v.valueType
               && declared[k].arraySize == |v.values|;
      assert ParameterStated(v, declared[k]);
    }
  }

  lemma ResourceStatedExactly(v: ResourceState, declared: seq<ResourceLayout>)
    ensures ResourceStatedSomewhere(v, declared) <==> HasResourceDeclaration(v, declared)
  {
    if HasResourceDeclaration(v, declared) {
      var k :| 0 <= k < |declared| && declared[k] == ResourceLayout(v.name, v.resourceType, |v.values|);
      assert ResourceStated(v, declared[k]);
    }
  }

  /** The set of names seen so far finds exactly the repetitions. */
  lemma NextName(names: seq<string>, n: nat)
    requires n < |names| && Distinct(names[..n])
    ensures Distinct(names[..n + 1]) <==> names[n] !in NameSet(names[..n])
    ensures NameSet(names[..n + 1]) == NameSet(names[..n]) + {names[n]}
  {
    assert names[..n + 1][..n] == names[..n] && names[..n + 1] == names[..n] + [names[n]];
    LastName(names[..n + 1]);
  }

  lemma DistinctPrefix(names: seq<string>, n: nat)
    requires n <= |names| && Distinct(names)
    ensures Distinct(names[..n])
  {
  }

  /** Collects the names in a set and stops at the first one already there. */
  method NamesDistinct(all: seq<string>) returns (ok: bool)
    ensures ok <==> Distinct(all)
  {
    hide Distinct;
    var names: set<string> := {};
    var i := 0;
    NoNames(all);
    while i < |all|
      invariant 0 <= i <= |all| && names == NameSet(all[..i]) && Distinct(all[..i])
    {
      NextName(all, i);
      if all[i] in names {
        Repetition(all, i);
        return false;
      }
      names := names + {all[i]};
      i := i + 1;
    }
    assert all[..i] == all;
    ok := true;
  }

  /** The whole check: declarations first, then the state of parameters and resources. */
  method ValidateMaterial(m: MaterialRecord) returns (ok: bool)
    ensures ok <==> Validated(m)
    ensures ok <==> Accepts(m)
  {
    ValidatedExactly(m);
    hide Accepts;
    hide Distinct, ParameterDeclared, ResourceDeclared, StatedSomewhere, ResourceStatedSomewhere;
    if m.generated.None? {
      return m.parameters == [] && m.resources == [];
    }
    var g := m.generated.value;
    var parametersNamed := NamesDistinct(ParameterNames(g.parameters));
    var resourcesNamed := NamesDistinct(ResourceNames(g.resources));
    if !parametersNamed || !resourcesNamed ||
       (exists i :: 0 <= i < |g.parameters| && !ParameterDeclared(g.parameters[i])) ||
       (exists i :: 0 <= i < |g.resources| && !ResourceDeclared(g.resources[i])) {
      return false;
    }
    var parameters := NamesDistinct(EntryNames(m.parameters));
    var resources := NamesDistinct(StateNames(m.resources));
    ok := && parameters && |m.parameters| == |g.parameters|
          && (forall i :: 0 <= i < |m.parameters| ==> StatedSomewhere(m.parameters[i], g.parameters))
          && resources && |m.resources| == |g.resources|
          && (forall i :: 0 <= i < |m.resources| ==> ResourceStatedSomewhere(m.resources[i], g.resources));
  }

  lemma NoNames(names: seq<string>)
    ensures Distinct(names[..0]) && NameSet(names[..0]) == {}
  {
  }

  lemma Repetition(names: seq<string>, n: nat)
    requires n < |names| && !Distinct(names[..n + 1])
    ensures !Distinct(names)
  {
    var k: nat := n + 1;
    if Distinct(names) {
      DistinctPrefix(names, k);
    }
  }

  /** Declared names are distinct, so comparing with the first declaration of the name is enough. */
  lemma FirstIsOnly(state: P.Entry, declared: seq<ParameterLayout>, k: nat)
    requires Distinct(ParameterNames(declared)) && k < |declared| && declared[k].name == state.name
    ensures StatedSomewhere(state, declared) <==> ParameterStated(state, declared[k])
  {
    if StatedSomewhere(state, declared) {
      var j :| 0 <= j < |declared| && ParameterStated(state, declared[j]);
      assert ParameterNames(declared)[j] == ParameterNames(declared)[k];
    }
  }

  // ------------------------------------------------------------ Which artifact is selected

  /** The indices at which a name occurs first, of those that are declared again. */
  method VerifyDeclaredNamesUnique(names: seq<string>) returns (reported: seq<nat>)
    ensures reported == [] <==> Distinct(names)
  {
    reported := [];
    var i := 0;
    while i < |names|
      invariant 0 <= i <= |names|
      invariant reported == [] <==> forall j, k :: 0 <= j < i && j < k < |names| ==> names[j] != names[k]
    {
      if (exists j :: 0 <= j < i && names[j] == names[i]) || (forall k :: i < k < |names| ==> names[k] != names[i]) {
      } else {
        reported := reported + [i];
      }
      i := i + 1;
    }
  }

  predicate ParameterBound(b: P.Binding, e: ParameterLayout, size: P.Word) {
    b.name == e.name && b.valueType == e.valueType && b.arraySize == e.arraySize && P.GeneratedBindingFits(b, size)
  }

  predicate ResourceBound(b: ResourceBinding, e: ResourceLayout) {
    b.name == e.name && b.resourceType == e.resourceType && b.arraySize == e.arraySize
  }

  predicate ParameterFound(a: Artifact, e: ParameterLayout) {
    exists k :: 0 <= k < |a.parameters| && ParameterBound(a.parameters[k], e, a.parameterSize)
  }

  predicate ResourceFound(a: Artifact, e: ResourceLayout) {
    exists k :: 0 <= k < |a.resources| && ResourceBound(a.resources[k], e)
  }

  /** As many bindings as declarations, and one for every declaration. */
  ghost predicate LayoutMatches(a: Artifact, g: Module) {
    && |a.parameters| == |g.parameters| && |a.resources| == |g.resources|
    && (forall i :: 0 <= i < |g.parameters| ==> ParameterFound(a, g.parameters[i]))
    && (forall i :: 0 <= i < |g.resources| ==> ResourceFound(a, g.resources[i]))
  }

  method ConcreteLayoutMatches(a: Artifact, g: Module) returns (ok: bool)
    ensures ok <==> LayoutMatches(a, g)
  {
    ok := |a.resources| == |g.resources|;
    var i := 0;
    while i < |g.resources|
      invariant 0 <= i <= |g.resources|
      invariant ok <==> |a.resources| == |g.resources| &&
                        forall j :: 0 <= j < i ==> ResourceFound(a, g.resources[j])
    {
      ok := ok && ResourceFound(a, g.resources[i]);
      i := i + 1;
    }
    if !ok {
      return;
    }
    ok := |a.parameters| == |g.parameters|;
    i := 0;
    while i < |g.parameters|
      invariant 0 <= i <= |g.parameters|
      invariant ok <==> |a.parameters| == |g.parameters| &&
                        forall j :: 0 <= j < i ==> ParameterFound(a, g.parameters[j])
    {
      ok := ok && ParameterFound(a, g.parameters[i]);
      i := i + 1;
    }
  }

  /** Every texture and sampler the state names is in the tables. */
  predicate ResourcesAvailable(m: MaterialRecord, textures: seq<nat>, samplers: seq<nat>) {
    forall i, j :: 0 <= i < |m.resources| && 0 <= j < |m.resources[i].values| ==>
      var v := m.resources[i].values[j];
      (v.texture.Some? ==> v.texture.value in textures) && (v.sampler.Some? ==> v.sampler.value in samplers)
  }

  /** What else a selection depends on: whether the material is drawn, its set layout exists,
      the rest of its interface agrees, and its shader loads. */
  datatype Gate = Gate(drawn: bool, layoutCreated: bool, interfaceAgrees: bool, shaderLoads: bool)
  {
    predicate Open() {
      drawn && layoutCreated && interfaceAgrees && shaderLoads
    }
  }

  function FindArtifact(registered: seq<Artifact>, key: string): (a: Option<Artifact>)
    ensures a.Some? ==> a.value in registered && a.value.moduleKey == key
    ensures a.None? ==> forall x :: x in registered ==> x.moduleKey != key
  {
    if registered == [] then None
    else if registered[0].moduleKey == key then Some(registered[0])
    else FindArtifact(registered[1..], key)
  }

  /** The artifact of the material's module, if nothing speaks against it. */
  ghost function Selected(m: MaterialRecord, registered: seq<Artifact>, gate: Gate, constants: nat, textures: seq<nat>,
                          samplers: seq<nat>): Option<Artifact>
  {
    if m.generated.None? || !gate.Open() then None
    else
      var a := FindArtifact(registered, m.generated.value.key);
      var g := m.generated.value;
      if && a.Some? && a.value.constantsBinding == constants && LayoutMatches(a.value, g)
         && Distinct(ParameterNames(g.parameters)) && Distinct(ResourceNames(g.resources))
         && ResourcesAvailable(m, textures, samplers)
      then a else None
  }

  /** Artifact k is the first registered under the key. */
  predicate FirstArtifact(registered: seq<Artifact>, key: string, k: int) {
    0 <= k < |registered| && registered[k].moduleKey == key && forall j :: 0 <= j < k ==> registered[j].moduleKey != key
  }

  lemma {:induction false} FindsFirst(registered: seq<Artifact>, key: string)
    ensures FindArtifact(registered, key).Some? <==> exists k :: FirstArtifact(registered, key, k)
    ensures forall k :: FirstArtifact(registered, key, k) ==> FindArtifact(registered, key) == Some(registered[k])
  {
    if registered != [] && registered[0].moduleKey == key {
      assert FirstArtifact(registered, key, 0);
    } else if registered != [] {
      FindsFirst(registered[1..], key);
      assert forall k :: FirstArtifact(registered, key, k) ==> FirstArtifact(registered[1..], key, k - 1);
      assert forall k :: FirstArtifact(registered[1..], key, k) ==> FirstArtifact(registered, key, k + 1);
    }
  }

  /** In the fields: every declaration has a binding of its name, type and size, the parameters'
      inside the block, and there are no more bindings; no name is declared twice; and the tables
      have every texture and sampler the material names. */
  ghost predicate Suitable(m: MaterialRecord, g: Module, a: Artifact, constants: nat, textures: seq<nat>,
                           samplers: seq<nat>)
  {
    && a.constantsBinding == constants
    && |a.parameters| == |g.parameters| && |a.resources| == |g.resources|
    && (forall i :: 0 <= i < |g.parameters| ==> HasBinding(a, g.parameters[i]))
    && (forall i :: 0 <= i < |g.resources| ==> HasResourceBinding(a, g.resources[i]))
    && (forall i, j :: 0 <= i < j < |g.parameters| ==> g.parameters[i].name != g.parameters[j].name)
    && (forall i, j :: 0 <= i < j < |g.resources| ==> g.resources[i].name != g.resources[j].name)
    && (forall i, j :: 0 <= i < |m.resources| && 0 <= j < |m.resources[i].values| ==>
          && (m.resources[i].values[j].texture.Some? ==> m.resources[i].values[j].texture.value in textures)
          && (m.resources[i].values[j].sampler.Some? ==> m.resources[i].values[j].sampler.value in samplers))
  }

  predicate HasBinding(a: Artifact, e: ParameterLayout) {
    exists k ::
      && 0 <= k < |a.parameters| && a.parameters[k].name == e.name && a.parameters[k].valueType == e.valueType
      && a.parameters[k].arraySize == e.arraySize && P.GeneratedBindingFits(a.parameters[k], a.parameterSize)
  }

  predicate HasResourceBinding(a: Artifact, e: ResourceLayout) {
    exists k ::
      && 0 <= k < |a.resources| && a.resources[k].name == e.name
      && a.resources[k].resourceType == e.resourceType && a.resources[k].arraySize == e.arraySize
  }

  lemma FoundExactly(a: Artifact, e: ParameterLayout)
    ensures ParameterFound(a, e) <==> HasBinding(a, e)
  {
    hide P.GeneratedBindingFits;
    if HasBinding(a, e) {
      var k :| && 0 <= k < |a.parameters| && a.parameters[k].name == e.name && a.parameters[k].valueType == e.valueType
               && a.parameters[k].arraySize == e.arraySize && P.GeneratedBindingFits(a.parameters[k], a.parameterSize);
      assert ParameterBound(a.parameters[k], e, a.parameterSize);
    }
  }

  lemma ResourceFoundExactly(a: Artifact, e: ResourceLayout)
    ensures ResourceFound(a, e) <==> HasResourceBinding(a, e)
  {
    if HasResourceBinding(a, e) {
      var k :| && 0 <= k < |a.resources| && a.resources[k].name == e.name
               && a.resources[k].resourceType == e.resourceType && a.resources[k].arraySize == e.arraySize;
      assert ResourceBound(a.resources[k], e);
    }
  }

  /** The selection is the first artifact of the module's key, exactly if nothing speaks against it. */
  ghost predicate SelectedPlainly(m: MaterialRecord, registered: seq<Artifact>, gate: Gate, constants: nat,
                                  textures: seq<nat>, samplers: seq<nat>, a: Option<Artifact>)
  {
    if a.Some?
    then && m.generated.Some? && gate.drawn && gate.layoutCreated && gate.interfaceAgrees && gate.shaderLoads
         && exists k ::
              && FirstArtifact(registered, m.generated.value.key, k) && a.value == registered[k]
              && Suitable(m, m.generated.value, registered[k], constants, textures, samplers)
    else !(&& m.generated.Some? && gate.drawn && gate.layoutCreated && gate.interfaceAgrees && gate.shaderLoads
           && exists k ::
                && FirstArtifact(registered, m.generated.value.key, k)
                && Suitable(m, m.generated.value, registered[k], constants, textures, samplers))
  }

  lemma SuitableExactly(m: MaterialRecord, g: Module, a: Artifact, constants: nat, textures: seq<nat>,
                        samplers: seq<nat>)
    ensures Suitable(m, g, a, constants, textures, samplers) <==>
            && a.constantsBinding == constants && LayoutMatches(a, g)
            && Distinct(ParameterNames(g.parameters)) && Distinct(ResourceNames(g.resources))
            && ResourcesAvailable(m, textures, samplers)
  {
    hide ParameterFound, ResourceFound, HasBinding, HasResourceBinding;
    forall e: ParameterLayout ensures ParameterFound(a, e) <==> HasBinding(a, e) {
      FoundExactly(a, e);
    }
    forall e: ResourceLayout ensures ResourceFound(a, e) <==> HasResourceBinding(a, e) {
      ResourceFoundExactly(a, e);
    }
  }

  lemma SelectedIsPlain(m: MaterialRecord, registered: seq<Artifact>, gate: Gate, constants: nat, textures: seq<nat>,
                        samplers: seq<nat>)
    ensures SelectedPlainly(m, registered, gate, constants, textures, samplers,
                            Selected(m, registered, gate, constants, textures, samplers))
  {
    hide LayoutMatches, Distinct, ResourcesAvailable, Suitable, FindArtifact;
    if m.generated.Some? {
      FindsFirst(registered, m.generated.value.key);
      if k :| FirstArtifact(registered, m.generated.value.key, k) {
        SuitableExactly(m, m.generated.value, registered[k], constants, textures, samplers);
      }
    }
  }

  method SelectOne(m: MaterialRecord, registered: seq<Artifact>, gate: Gate, constants: nat, textures: seq<nat>,
                   samplers: seq<nat>)
    returns (a: Option<Artifact>)
    ensures a == Selected(m, registered, gate, constants, textures, samplers)
    ensures SelectedPlainly(m, registered, gate, constants, textures, samplers, a)
  {
    hide LayoutMatches, Distinct, SelectedPlainly;
    SelectedIsPlain(m, registered, gate, constants, textures, samplers);
    if m.generated.None? || !gate.drawn {
      return None;
    }
    var g := m.generated.value;
    a := FindArtifact(registered, g.key);
    if a.None? || a.value.constantsBinding != constants || !gate.layoutCreated {
      return None;
    }
    var matches := ConcreteLayoutMatches(a.value, g);
    var parameters := VerifyDeclaredNamesUnique(ParameterNames(g.parameters));
    var resources := VerifyDeclaredNamesUnique(ResourceNames(g.resources));
    if !matches || !ResourcesAvailable(m, textures, samplers) || parameters != [] || resources != [] ||
       !gate.interfaceAgrees || !gate.shaderLoads {
      return None;
    }
  }

  method SelectGeneratedMaterials(records: seq<MaterialRecord>, registered: seq<Artifact>, gates: seq<Gate>,
                                  constants: nat, textures: seq<nat>, samplers: seq<nat>)
    returns (artifacts: seq<Option<Artifact>>)
    requires |gates| == |records|
    ensures |artifacts| == |records|
    ensures forall i :: 0 <= i < |records| ==>
              && artifacts[i] == Selected(records[i], registered, gates[i], constants, textures, samplers)
              && SelectedPlainly(records[i], registered, gates[i], constants, textures, samplers, artifacts[i])
  {
    hide Selected, SelectedPlainly;
    artifacts := [];
    while |artifacts| < |records|
      invariant |artifacts| <= |records|
      invariant forall i :: 0 <= i < |artifacts| ==>
                  && artifacts[i] == Selected(records[i], registered, gates[i], constants, textures, samplers)
                  && SelectedPlainly(records[i], registered, gates[i], constants, textures, samplers, artifacts[i])
    {
      var i := |artifacts|;
      var a := SelectOne(records[i], registered, gates[i], constants, textures, samplers);
      artifacts := artifacts + [a];
    }
  }

  // ------------------------------------------------------------ A selected artifact always packs

  /** Counting: bindings and declarations match one to one, so every binding fits. */
  lemma BindingIsDeclared(a: Artifact, g: Module, k: nat) returns (i: nat)
    requires LayoutMatches(a, g) && Distinct(ParameterNames(g.parameters)) && k < |a.parameters|
    ensures i < |g.parameters| && ParameterBound(a.parameters[k], g.parameters[i], a.parameterSize)
  {
    var declared, bound := ParameterNames(g.parameters), BindingNames(a.parameters);
    forall x | x in declared ensures x in bound {
      var j :| 0 <= j < |declared| && declared[j] == x;
      assert ParameterFound(a, g.parameters[j]);
      var b :| 0 <= b < |a.parameters| && ParameterBound(a.parameters[b], g.parameters[j], a.parameterSize);
      assert bound[b] == x;
    }
    OneToOne(declared, bound);
    assert bound[k] in bound;
    i :| 0 <= i < |declared| && declared[i] == bound[k];
    var b :| 0 <= b < |a.parameters| && ParameterBound(a.parameters[b], g.parameters[i], a.parameterSize);
    assert bound[b] == bound[k];
  }

  lemma ResourceIsDeclared(a: Artifact, g: Module, k: nat) returns (i: nat)
    requires LayoutMatches(a, g) && Distinct(ResourceNames(g.resources)) && k < |a.resources|
    ensures i < |g.resources| && ResourceBound(a.resources[k], g.resources[i])
  {
    var declared, bound := ResourceNames(g.resources), ResourceBindingNames(a.resources);
    forall x | x in declared ensures x in bound {
      var j :| 0 <= j < |declared| && declared[j] == x;
      assert ResourceFound(a, g.resources[j]);
      var b :| 0 <= b < |a.resources| && ResourceBound(a.resources[b], g.resources[j]);
      assert bound[b] == x;
    }
    OneToOne(declared, bound);
    assert bound[k] in bound;
    i :| 0 <= i < |declared| && declared[i] == bound[k];
    var b :| 0 <= b < |a.resources| && ResourceBound(a.resources[b], g.resources[i]);
    assert bound[b] == bound[k];
  }

  /** States match declarations one to one. */
  lemma NamesStated(state: seq<P.Entry>, declared: seq<ParameterLayout>)
    requires ParametersStated(state, declared)
    ensures forall x :: x in ParameterNames(declared) ==> x in EntryNames(state)
  {
    var names, stated := ParameterNames(declared), EntryNames(state);
    forall x | x in stated ensures x in names {
      var j :| 0 <= j < |stated| && stated[j] == x;
      assert StatedSomewhere(state[j], declared);
      var k :| 0 <= k < |declared| && ParameterStated(state[j], declared[k]);
      assert names[k] == x;
    }
    OneToOne(stated, names);
  }

  lemma ResourceNamesStated(state: seq<ResourceState>, declared: seq<ResourceLayout>)
    requires ResourcesStated(state, declared)
    ensures forall x :: x in ResourceNames(declared) ==> x in StateNames(state)
  {
    var names, stated := ResourceNames(declared), StateNames(state);
    forall x | x in stated ensures x in names {
      var j :| 0 <= j < |stated| && stated[j] == x;
      assert ResourceStatedSomewhere(state[j], declared);
      var k :| 0 <= k < |declared| && ResourceStated(state[j], declared[k]);
      assert names[k] == x;
    }
    OneToOne(stated, names);
  }

  /** The declaration that states a value is the one of its name. */
  lemma StatedHere(v: P.Entry, declared: seq<ParameterLayout>, i: nat)
    requires StatedSomewhere(v, declared) && Distinct(ParameterNames(declared))
    requires i < |declared| && declared[i].name == v.name
    ensures ParameterStated(v, declared[i])
  {
    FirstIsOnly(v, declared, i);
  }

  lemma ResourceStatedHere(v: ResourceState, declared: seq<ResourceLayout>, i: nat)
    requires ResourceStatedSomewhere(v, declared) && Distinct(ResourceNames(declared))
    requires i < |declared| && declared[i].name == v.name
    ensures ResourceStated(v, declared[i])
  {
    var k :| 0 <= k < |declared| && ResourceStated(v, declared[k]);
    assert ResourceNames(declared)[k] == ResourceNames(declared)[i];
  }

  /** Every declared parameter has a state, and the packer's search finds it. */
  lemma DeclaredIsStated(m: MaterialRecord, i: nat)
    requires Validated(m) && m.generated.Some? && i < |m.generated.value.parameters|
    ensures var e := Find(m.parameters, m.generated.value.parameters[i].name);
            e.Some? && ParameterStated(e.value, m.generated.value.parameters[i])
  {
    hide Distinct, StatedSomewhere, ParameterStated, ParameterDeclared, ResourcesStated;
    var declared := m.generated.value.parameters;
    var name := declared[i].name;
    NamesStated(m.parameters, declared);
    assert ParameterNames(declared)[i] in ParameterNames(declared);
    var s :| 0 <= s < |m.parameters| && EntryNames(m.parameters)[s] == name;
    assert m.parameters[s] in m.parameters && m.parameters[s].name == name;
    StatedHere(Find(m.parameters, name).value, declared, i);
  }

  lemma StateFound(states: seq<ResourceState>, name: string)
    ensures var s := StateFor(states, name);
            && (s.Some? ==> s.value in states && s.value.name == name)
            && (s.None? ==> forall x :: x in states ==> x.name != name)
  {
  }

  lemma DeclaredResourceIsStated(m: MaterialRecord, i: nat)
    requires Validated(m) && m.generated.Some? && i < |m.generated.value.resources|
    ensures var s := StateFor(m.resources, m.generated.value.resources[i].name);
            s.Some? && s.value in m.resources && ResourceStated(s.value, m.generated.value.resources[i])
  {
    hide Distinct, ResourceStatedSomewhere, ResourceStated, ResourceDeclared, ParametersStated;
    var declared := m.generated.value.resources;
    var name := declared[i].name;
    ResourceNamesStated(m.resources, declared);
    assert ResourceNames(declared)[i] in ResourceNames(declared);
    var s :| 0 <= s < |m.resources| && StateNames(m.resources)[s] == name;
    assert m.resources[s] in m.resources && m.resources[s].name == name;
    StateFound(m.resources, name);
    ResourceStatedHere(StateFor(m.resources, name).value, declared, i);
  }

  /** Every binding of a selected artifact fits its block, and every one can be packed. */
  lemma SelectedPacks(m: MaterialRecord, a: Artifact)
    requires Validated(m) && m.generated.Some? && LayoutMatches(a, m.generated.value)
    ensures forall k :: 0 <= k < |a.parameters| ==> P.GeneratedBindingFits(a.parameters[k], a.parameterSize)
    ensures BlockPacks(Some(a), m)
  {
    hide LayoutMatches, Distinct, P.GeneratedBindingFits, P.PackerEnd, P.PackedSize, AllEncodable;
    forall k | 0 <= k < |a.parameters|
      ensures P.GeneratedBindingFits(a.parameters[k], a.parameterSize)
      ensures BindingPacks(a.parameters[k], m.parameters, a.parameterSize)
    {
      var i := BindingIsDeclared(a, m.generated.value, k);
      DeclaredIsStated(m, i);
      P.PackerEndIsExact(a.parameters[k], a.parameterSize);
      assert ParameterDeclared(m.generated.value.parameters[i]);
    }
  }

  /** And if the tables have native objects, every resource of it can be written. */
  lemma SelectedWritable(m: MaterialRecord, a: Artifact, textures: seq<nat>, samplers: seq<nat>, native: Native, k: nat)
    requires Validated(m) && m.generated.Some? && LayoutMatches(a, m.generated.value) && k < |a.resources|
    requires ResourcesAvailable(m, textures, samplers)
    requires (forall t :: t in textures ==> t in native.views) && (forall s :: s in samplers ==> s in native.samplers)
    ensures ResourceWritable(m, a.resources[k], native)
  {
    hide LayoutMatches, Distinct;
    var i := ResourceIsDeclared(a, m.generated.value, k);
    DeclaredResourceIsStated(m, i);
    var s := StateFor(m.resources, a.resources[k].name).value;
    var f :| 0 <= f < |m.resources| && m.resources[f] == s;
    forall j | 0 <= j < |s.values|
      ensures HasTexture(s.resourceType) ==> s.values[j].texture.Some? && s.values[j].texture.value in native.views
      ensures HasSampler(s.resourceType) ==> s.values[j].sampler.Some? && s.values[j].sampler.value in native.samplers
    {
      assert ValueStated(s.values[j], s.resourceType);
      assert m.resources[f].values[j] == s.values[j];
    }
  }

  // ------------------------------------------------------------ So only native calls fail

  /** A native call that the preparation makes fails, or the pool's sizes wrap. */
  ghost predicate NativeFails(f: Frame, snapshot: Snapshot, generation: nat, artifacts: seq<Option<Artifact>>,
                              native: Native, registered: seq<Artifact>, layout: Layout, faults: Faults)
    requires layout.Sound() && |artifacts| == |snapshot.materials.records|
  {
    var reuse, count := Reusable(f, snapshot, generation, artifacts), |artifacts|;
    var total := ParameterEnd(artifacts, layout.alignment, count);
    && count > 0
    && (|| (faults.fallback && (native.fallbackView == 0 || native.fallbackSampler == 0))
        || PoolFails(f, count, reuse, faults)
        || UniformsFail(f, count, layout, faults)
        || (total != 0 && ((NeedsBuffer(f.generated, total) && faults.createGenerated) || faults.mapGenerated))
        || (!reuse && (faults.allocate || !PoolHolds(f, artifacts, registered))))
  }

  /** Every material is validated, its artifact was selected for it, and its tables have native objects. */
  ghost predicate SelectionSound(snapshot: Snapshot, artifacts: seq<Option<Artifact>>, native: Native,
                                 registered: seq<Artifact>, gates: seq<Gate>, constants: nat)
  {
    var records, textures, samplers := snapshot.materials.records, snapshot.textures.records, snapshot.samplers.records;
    && |artifacts| == |records| == |gates|
    && (forall i :: 0 <= i < |records| ==>
          && Validated(records[i])
          && artifacts[i] == Selected(records[i], registered, gates[i], constants, textures, samplers))
    && (forall t :: t in textures ==> t in native.views) && (forall s :: s in samplers ==> s in native.samplers)
  }

  /** Validated materials with selected artifacts fail to be prepared exactly when a native call
      does: no parameter block is rejected, and no set lacks a resource. */
  lemma OnlyNativeCallsFail(f: Frame, snapshot: Snapshot, generation: nat, artifacts: seq<Option<Artifact>>,
                            native: Native, registered: seq<Artifact>, layout: Layout, faults: Faults,
                            gates: seq<Gate>, constants: nat)
    requires layout.Sound() && RefsInside(snapshot)
    requires SelectionSound(snapshot, artifacts, native, registered, gates, constants)
    ensures Fails(f, snapshot, generation, artifacts, native, registered, layout, faults) <==>
            NativeFails(f, snapshot, generation, artifacts, native, registered, layout, faults)
  {
    forall i | 0 <= i < |artifacts| ensures BlockPacks(artifacts[i], snapshot.materials.records[i]) {
      if artifacts[i].Some? {
        SelectedPacks(snapshot.materials.records[i], artifacts[i].value);
      }
    }
    AllSetsWritable(snapshot, artifacts, native, registered, layout, gates, constants);
    hide BlockPacks, RefsInside, AllWritable, Selected, Validated, PoolHolds, ParameterEnd, UniformsFail, PoolFails;
  }

  lemma AllSetsWritable(snapshot: Snapshot, artifacts: seq<Option<Artifact>>, native: Native, registered: seq<Artifact>,
                        layout: Layout, gates: seq<Gate>, constants: nat)
    requires RefsInside(snapshot) && SelectionSound(snapshot, artifacts, native, registered, gates, constants)
    ensures AllWritable(snapshot, artifacts, native, layout)
  {
    hide ResourceWritable, LayoutMatches, Validated, ResourcesAvailable;
    var e := EnvironmentOf(SourceOf(snapshot, 0, artifacts), native, 0, 0, layout);
    forall i | 0 <= i < |artifacts| ensures MaterialWritable(e, i) {
      var m := snapshot.materials.records[i];
      if artifacts[i].Some? {
        var a := artifacts[i].value;
        forall k | 0 <= k < |a.resources| ensures ResourceWritable(m, a.resources[k], native) {
          SelectedWritable(m, a, snapshot.textures.records, snapshot.samplers.records, native, k);
        }
      } else {
        assert RefInside(m.base, snapshot) && RefInside(m.normal, snapshot);
      }
    }
  }
}
