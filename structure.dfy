/**
 * The slice of the structure object model that reduce and the ligand pass
 * work on. Groups and chains are values; a Structure is an object whose
 * models the core builds and extends in place.
 */
module Structures {
  import opened Wrappers
  import opened Ranges

  /** An atom; coordinates are not modelled, contact is decided by an abstract test. */
  datatype Atom = Atom(serial: int)

  /** Chemical-component metadata; only its "standard residue" flag is consulted. */
  datatype ChemComp = ChemComp(isStandard: bool)

  /** A residue or ligand. Groups are shared between full and reduced structures, never changed. */
  datatype Group = Group(
    pdbName: string,
    chainId: string,
    residueNumber: ResidueNumber,
    isWater: bool,
    chemComp: Option<ChemComp>,
    atoms: seq<Atom>)

  /** A chain: its id, its (author) name, which may be null, its groups and its SEQRES data. */
  datatype Chain = Chain(
    id: string,
    name: Option<string>,
    groups: seq<Group>,
    seqResGroups: seq<Group>,
    seqMisMatches: seq<string>)

  /** getPolyChainByPDB: the first chain carrying the name; a null name matches nothing. */
  function ChainByName(chains: seq<Chain>, name: Option<string>): (r: Option<nat>)
    ensures r.Some? ==> r.value < |chains| && name.Some? && chains[r.value].name == name
    ensures r.Some? ==> forall j | 0 <= j < r.value :: chains[j].name != name
    ensures r.None? ==> name.None? || forall j | 0 <= j < |chains| :: chains[j].name != name
  {
    if chains == [] || name.None? then None
    else if chains[0].name == name then Some(0)
    else match ChainByName(chains[1..], name)
      case None => None
      case Some(i) => Some(i + 1)
  }

  /** The first chain carrying a (non-null) name is the one getPolyChainByPDB returns. */
  lemma ChainByNameAt(chains: seq<Chain>, name: Option<string>, i: nat)
    requires name.Some? && i < |chains| && chains[i].name == name
    requires forall j | 0 <= j < i :: chains[j].name != name
    ensures ChainByName(chains, name) == Some(i)
  {
  }

  /** Appending a chain does not move a lookup that already succeeds, nor one for another name. */
  lemma ChainByNameAppend(chains: seq<Chain>, c: Chain, name: Option<string>)
    requires ChainByName(chains, name).Some? || c.name != name
    ensures ChainByName(chains + [c], name) == ChainByName(chains, name)
  {
    var r := ChainByName(chains, name);
    if r.Some? {
      ChainByNameAt(chains + [c], name, r.value);
    }
  }

  /** Replacing a chain by one with the same name changes no lookup by name. */
  lemma ChainByNameUpdate(chains: seq<Chain>, i: nat, c: Chain, name: Option<string>)
    requires i < |chains| && c.name == chains[i].name
    ensures ChainByName(chains[i := c], name) == ChainByName(chains, name)
  {
    var r := ChainByName(chains, name);
    if r.Some? {
      ChainByNameAt(chains[i := c], name, r.value);
    }
  }

  /** findChain: the first chain with the id. */
  function ChainById(chains: seq<Chain>, id: string): (r: Option<nat>)
    ensures r.Some? ==> r.value < |chains| && chains[r.value].id == id
    ensures r.Some? ==> forall j | 0 <= j < r.value :: chains[j].id != id
    ensures r.None? ==> forall j | 0 <= j < |chains| :: chains[j].id != id
  {
    if chains == [] then None
    else if chains[0].id == id then Some(0)
    else match ChainById(chains[1..], id)
      case None => None
      case Some(i) => Some(i + 1)
  }

  /** The first chain with the id is the one findChain returns. */
  lemma ChainByIdAt(chains: seq<Chain>, id: string, i: nat)
    requires i < |chains| && chains[i].id == id
    requires forall j | 0 <= j < i :: chains[j].id != id
    ensures ChainById(chains, id) == Some(i)
  {
  }

  /** findGroup succeeds: the chain found by id holds a group at the same position. */
  predicate HasGroup(chains: seq<Chain>, chainId: string, position: ResidueNumber) {
    match ChainById(chains, chainId)
    case None => false
    case Some(i) => exists k | 0 <= k < |chains[i].groups| :: SamePosition(chains[i].groups[k].residueNumber, position)
  }

  /** getAllAtomArray for one model: every atom of every group, chain by chain. */
  function AllAtoms(chains: seq<Chain>): seq<Atom> {
    if chains == [] then [] else AllAtoms(chains[..|chains| - 1]) + GroupAtoms(chains[|chains| - 1].groups)
  }

  function GroupAtoms(groups: seq<Group>): seq<Atom> {
    if groups == [] then [] else GroupAtoms(groups[..|groups| - 1]) + groups[|groups| - 1].atoms
  }

  /**
   * b is a with groups appended to its chains and chains appended after
   * them: nothing removed, nothing reordered, nothing else about a chain
   * changed.
   */
  predicate Extends(a: seq<Chain>, b: seq<Chain>) {
    |a| <= |b| && forall i | 0 <= i < |a| :: a[i].groups <= b[i].groups && b[i].(groups := a[i].groups) == a[i]
  }

  lemma ExtendsTransitive(a: seq<Chain>, b: seq<Chain>, c: seq<Chain>)
    requires Extends(a, b) && Extends(b, c)
    ensures Extends(a, c)
  {
    forall i | 0 <= i < |a|
      ensures a[i].groups <= c[i].groups && c[i].(groups := a[i].groups) == a[i]
    {
      assert b[i].(groups := a[i].groups) == a[i];
      assert c[i].(groups := b[i].groups) == b[i];
    }
  }

  /** Chains found by id stay found at the same place once the model only grows. */
  lemma ChainByIdPersists(a: seq<Chain>, b: seq<Chain>, id: string)
    requires Extends(a, b) && ChainById(a, id).Some?
    ensures ChainById(b, id) == ChainById(a, id)
  {
    var i := ChainById(a, id).value;
    assert b[i].id == a[i].id by {
      assert b[i].(groups := a[i].groups) == a[i];
    }
    forall j | 0 <= j < i
      ensures b[j].id != id
    {
      assert b[j].(groups := a[j].groups) == a[j];
    }
  }

  /** A group that findGroup sees is still seen once the model only grows. */
  lemma HasGroupPersists(a: seq<Chain>, b: seq<Chain>, id: string, position: ResidueNumber)
    requires Extends(a, b) && HasGroup(a, id, position)
    ensures HasGroup(b, id, position)
  {
    ChainByIdPersists(a, b, id);
    var i := ChainById(a, id).value;
    var k :| 0 <= k < |a[i].groups| && SamePosition(a[i].groups[k].residueNumber, position);
    assert b[i].groups[k] == a[i].groups[k];
  }

  /** A structure object: header fields the reducer copies and the models it builds. */
  class Structure {
    var pdbCode: string
    var name: string
    var biologicalAssembly: bool
    var models: seq<seq<Chain>>

    /** new StructureImpl(): no models yet. */
    constructor ()
      ensures pdbCode == "" && name == "" && !biologicalAssembly && models == []
    {
      pdbCode := "";
      name := "";
      biologicalAssembly := false;
      models := [];
    }

    /** addModel */
    method AddModel(chains: seq<Chain>)
      modifies this`models
      ensures models == old(models) + [chains]
    {
      models := models + [chains];
    }

    /** setModel */
    method SetModel(model: nat, chains: seq<Chain>)
      requires model < |models|
      modifies this`models
      ensures models == old(models)[model := chains]
    {
      models := models[model := chains];
    }

    /** addChain */
    method AddChain(model: nat, c: Chain)
      requires model < |models|
      modifies this`models
      ensures models == old(models)[model := old(models[model]) + [c]]
    {
      models := models[model := models[model] + [c]];
    }

    /** Chain.addGroup on the chain at the given place of a model. */
    method AddGroup(model: nat, chain: nat, g: Group)
      requires model < |models| && chain < |models[model]|
      modifies this`models
      ensures models == old(models)[model := old(models[model])[chain := old(models[model][chain]).(groups := old(models[model][chain].groups) + [g])]]
    {
      var m := models[model];
      models := models[model := m[chain := m[chain].(groups := m[chain].groups + [g])]];
    }
  }
}
