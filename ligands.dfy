/**
 * copyLigandsByProximity: re-attach ligands of the full structure that touch
 * the reduced one. The scan of the source is a fold over (chain, group)
 * visits; the methods perform it in place on a Structure.
 */
module Ligands {
  import opened Wrappers
  import opened Ranges
  import opened Structures

  /**
   * Grid.hasAnyContact for a grid of the given cutoff built over the first
   * atoms: whether some atom of the second list lies within the cutoff of
   * one of them. The geometry is not modelled.
   */
  type ContactTest = (real, seq<Atom>, seq<Atom>) -> bool

  /** Distance threshold for a plausible binding of a ligand to the selection. */
  const DefaultLigandProximityCutoff: real := 7.0

  /** Waters and standard (polymer) residues are never ligands; a group without ChemComp can be one. */
  predicate IsLigandCandidate(g: Group) {
    !g.isWater && !(g.chemComp.Some? && g.chemComp.value.isStandard)
  }

  /** One visit of the scan: a group of the full model together with its chain. */
  datatype Visit = Visit(source: Chain, group: Group)

  function ChainVisits(c: Chain, groups: seq<Group>): (r: seq<Visit>)
    ensures |r| == |groups|
    ensures forall k | 0 <= k < |groups| :: r[k] == Visit(c, groups[k])
  {
    if groups == [] then [] else ChainVisits(c, groups[..|groups| - 1]) + [Visit(c, groups[|groups| - 1])]
  }

  /** The visits of a model in scan order: chain by chain, group by group. */
  function ModelVisits(chains: seq<Chain>): (r: seq<Visit>)
    ensures forall v | v in r :: v.source in chains && v.group in v.source.groups
  {
    if chains == [] then []
    else
      var last := chains[|chains| - 1];
      ModelVisits(chains[..|chains| - 1]) + ChainVisits(last, last.groups)
  }

  /** Every group of the model is visited. */
  lemma {:induction false} ModelVisitsCover(chains: seq<Chain>, j: nat, k: nat)
    requires j < |chains| && k < |chains[j].groups|
    ensures Visit(chains[j], chains[j].groups[k]) in ModelVisits(chains)
  {
    var n := |chains|;
    var last := chains[n - 1];
    var cv := ChainVisits(last, last.groups);
    if j == n - 1 {
      assert cv[k] == Visit(chains[j], chains[j].groups[k]);
    } else {
      ModelVisitsCover(chains[..n - 1], j, k);
    }
  }

  /** The admission test, against the fixed grid and the target model as it is at that moment. */
  predicate Admits(contact: ContactTest, cutoff: real, grid: seq<Atom>, target: seq<Chain>, g: Group) {
    && IsLigandCandidate(g)
    && contact(cutoff, grid, g.atoms)
    && !HasGroup(target, g.chainId, g.residueNumber)
  }

  /**
   * Puts g at the end of the target chain with the source chain's id, or in
   * a new chain carrying that id and the source's SEQRES data.
   */
  function Attach(target: seq<Chain>, source: Chain, g: Group): (r: seq<Chain>)
    ensures Extends(target, r)
    ensures ChainById(r, source.id).Some?
    ensures var i := ChainById(r, source.id).value;
      && r[i].groups == (if i < |target| then target[i].groups else []) + [g]
      && (forall j | 0 <= j < |r| && j != i :: j < |target| && r[j] == target[j])
      && (i == |target| ==> ChainById(target, source.id).None?
                            && r[i] == Chain(source.id, None, [g], source.seqResGroups, source.seqMisMatches))
      && i <= |target|
  {
    match ChainById(target, source.id)
    case Some(i) =>
      var r := target[i := target[i].(groups := target[i].groups + [g])];
      assert ChainById(r, source.id) == Some(i) by {
        forall j | 0 <= j < i
          ensures r[j].id != source.id
        {
          assert r[j] == target[j];
        }
        ChainByIdAt(r, source.id, i);
      }
      r
    case None =>
      var r := target + [Chain(source.id, None, [g], source.seqResGroups, source.seqMisMatches)];
      assert ChainById(r, source.id) == Some(|target|) by {
        forall j | 0 <= j < |target|
          ensures r[j].id != source.id
        {
          assert r[j] == target[j];
        }
        ChainByIdAt(r, source.id, |target|);
      }
      r
  }

  /** One visit: attach the group when it is admitted, otherwise leave the target alone. */
  function Step(contact: ContactTest, cutoff: real, grid: seq<Atom>, target: seq<Chain>, v: Visit): seq<Chain> {
    if Admits(contact, cutoff, grid, target, v.group) then Attach(target, v.source, v.group) else target
  }

  /** The visits in order, each against the target as the earlier visits left it. */
  function Scan(contact: ContactTest, cutoff: real, grid: seq<Atom>, visits: seq<Visit>, target: seq<Chain>): seq<Chain> {
    if visits == [] then target
    else Step(contact, cutoff, grid, Scan(contact, cutoff, grid, visits[..|visits| - 1], target), visits[|visits| - 1])
  }

  /**
   * The pass over one pair of models: the grid is built from the target's
   * atoms before the scan, so groups added by the scan never widen it.
   */
  function LigandPass(contact: ContactTest, cutoff: real, full: seq<Chain>, reduced: seq<Chain>): seq<Chain> {
    Scan(contact, cutoff, AllAtoms(reduced), ModelVisits(full), reduced)
  }

  lemma ScanSnoc(contact: ContactTest, cutoff: real, grid: seq<Atom>, visits: seq<Visit>, v: Visit, target: seq<Chain>)
    ensures Scan(contact, cutoff, grid, visits + [v], target)
         == Step(contact, cutoff, grid, Scan(contact, cutoff, grid, visits, target), v)
  {
    assert (visits + [v])[..|visits|] == visits;
  }

  lemma StepExtends(contact: ContactTest, cutoff: real, grid: seq<Atom>, target: seq<Chain>, v: Visit)
    ensures Extends(target, Step(contact, cutoff, grid, target, v))
  {
  }

  /** The scan only appends: no group or chain is removed, reordered or altered. */
  lemma {:induction false} ScanExtends(contact: ContactTest, cutoff: real, grid: seq<Atom>, visits: seq<Visit>, target: seq<Chain>)
    ensures Extends(target, Scan(contact, cutoff, grid, visits, target))
  {
    if visits != [] {
      var init := visits[..|visits| - 1];
      var mid := Scan(contact, cutoff, grid, init, target);
      ScanExtends(contact, cutoff, grid, init, target);
      StepExtends(contact, cutoff, grid, mid, visits[|visits| - 1]);
      ExtendsTransitive(target, mid, Scan(contact, cutoff, grid, visits, target));
    }
  }

  /** Group k of chain i of b is one that a did not have. */
  predicate AddedAt(a: seq<Chain>, b: seq<Chain>, i: int, k: int) {
    0 <= i < |b| && 0 <= k < |b[i].groups| && (i < |a| ==> |a[i].groups| <= k)
  }

  /** What a scan adds was admitted: a ligand, touching the grid, absent from the target before, put in its source chain's id. */
  predicate AdmittedBy(contact: ContactTest, cutoff: real, grid: seq<Atom>, visits: seq<Visit>, target: seq<Chain>, c: Chain, g: Group) {
    && IsLigandCandidate(g)
    && contact(cutoff, grid, g.atoms)
    && !HasGroup(target, g.chainId, g.residueNumber)
    && exists v | v in visits :: v.group == g && v.source.id == c.id
  }

  lemma {:induction false} ScanAddsOnlyAdmitted(contact: ContactTest, cutoff: real, grid: seq<Atom>, visits: seq<Visit>, target: seq<Chain>, i: int, k: int)
    requires AddedAt(target, Scan(contact, cutoff, grid, visits, target), i, k)
    ensures var r := Scan(contact, cutoff, grid, visits, target);
      AdmittedBy(contact, cutoff, grid, visits, target, r[i], r[i].groups[k])
  {
    var r := Scan(contact, cutoff, grid, visits, target);
    assert visits != [];
    var init := visits[..|visits| - 1];
    var v := visits[|visits| - 1];
    var mid := Scan(contact, cutoff, grid, init, target);
    ScanExtends(contact, cutoff, grid, init, target);
    StepExtends(contact, cutoff, grid, mid, v);
    assert r == Step(contact, cutoff, grid, mid, v);
    if AddedAt(target, mid, i, k) {
      ScanAddsOnlyAdmitted(contact, cutoff, grid, init, target, i, k);
      assert r[i].(groups := mid[i].groups) == mid[i];
      assert r[i].groups[k] == mid[i].groups[k];
      var w :| w in init && w.group == mid[i].groups[k] && w.source.id == mid[i].id;
      assert w in visits;
    } else {
      var g := v.group;
      assert r != mid;
      assert Admits(contact, cutoff, grid, mid, g);
      var a := ChainById(r, v.source.id).value;
      assert i == a;
      assert r[i].groups[k] == g;
      if HasGroup(target, g.chainId, g.residueNumber) {
        HasGroupPersists(target, mid, g.chainId, g.residueNumber);
      }
      assert v in visits;
    }
  }

  /** Every well-placed ligand of the visits that touches the grid is in the target after the scan. */
  lemma {:induction false} ScanKeepsNearbyLigands(contact: ContactTest, cutoff: real, grid: seq<Atom>, visits: seq<Visit>, target: seq<Chain>)
    ensures var r := Scan(contact, cutoff, grid, visits, target);
      forall v | v in visits && IsLigandCandidate(v.group) && contact(cutoff, grid, v.group.atoms) && v.group.chainId == v.source.id ::
        HasGroup(r, v.group.chainId, v.group.residueNumber)
  {
    var r := Scan(contact, cutoff, grid, visits, target);
    if visits != [] {
      var init := visits[..|visits| - 1];
      var last := visits[|visits| - 1];
      var mid := Scan(contact, cutoff, grid, init, target);
      ScanKeepsNearbyLigands(contact, cutoff, grid, init, target);
      StepExtends(contact, cutoff, grid, mid, last);
      assert visits == init + [last];
      forall v | v in visits && IsLigandCandidate(v.group) && contact(cutoff, grid, v.group.atoms) && v.group.chainId == v.source.id
        ensures HasGroup(r, v.group.chainId, v.group.residueNumber)
      {
        var g := v.group;
        if HasGroup(mid, g.chainId, g.residueNumber) {
          HasGroupPersists(mid, r, g.chainId, g.residueNumber);
        } else {
          assert v !in init;
          assert v == last;
          var i := ChainById(r, v.source.id).value;
          assert r[i].groups[|r[i].groups| - 1] == g;
          assert SamePosition(r[i].groups[|r[i].groups| - 1].residueNumber, g.residueNumber);
        }
      }
    }
  }

  /** No chain holds two groups at the same position. */
  predicate DistinctPositions(chains: seq<Chain>) {
    forall i, k1, k2 | 0 <= i < |chains| && 0 <= k1 < k2 < |chains[i].groups| ::
      !SamePosition(chains[i].groups[k1].residueNumber, chains[i].groups[k2].residueNumber)
  }

  /** The presence check keeps positions distinct when every visited group names its own chain. */
  lemma {:induction false} ScanKeepsPositionsDistinct(contact: ContactTest, cutoff: real, grid: seq<Atom>, visits: seq<Visit>, target: seq<Chain>)
    requires DistinctPositions(target)
    requires forall v | v in visits :: v.group.chainId == v.source.id
    ensures DistinctPositions(Scan(contact, cutoff, grid, visits, target))
  {
    if visits != [] {
      var init := visits[..|visits| - 1];
      var v := visits[|visits| - 1];
      var mid := Scan(contact, cutoff, grid, init, target);
      assert forall w | w in init :: w in visits;
      ScanKeepsPositionsDistinct(contact, cutoff, grid, init, target);
      var r := Scan(contact, cutoff, grid, visits, target);
      if Admits(contact, cutoff, grid, mid, v.group) {
        var g := v.group;
        var a := ChainById(r, v.source.id).value;
        forall i, k1, k2 | 0 <= i < |r| && 0 <= k1 < k2 < |r[i].groups|
          ensures !SamePosition(r[i].groups[k1].residueNumber, r[i].groups[k2].residueNumber)
        {
          if i == a && k2 == |r[i].groups| - 1 {
            if a < |mid| {
              assert ChainById(mid, g.chainId) == Some(a);
              assert r[i].groups[k1] == mid[i].groups[k1];
            }
          } else if i == a {
            assert r[i].groups[k1] == mid[i].groups[k1] && r[i].groups[k2] == mid[i].groups[k2];
          }
        }
      }
    }
  }

  /** A model whose chain ids are distinct and whose groups name the chain that holds them. */
  predicate WellFormedModel(chains: seq<Chain>) {
    && (forall i, j | 0 <= i < j < |chains| :: chains[i].id != chains[j].id)
    && (forall i, k | 0 <= i < |chains| && 0 <= k < |chains[i].groups| :: chains[i].groups[k].chainId == chains[i].id)
  }

  lemma {:induction false} ScanOfPresentGroups(contact: ContactTest, cutoff: real, grid: seq<Atom>, visits: seq<Visit>, target: seq<Chain>)
    requires forall v | v in visits :: HasGroup(target, v.group.chainId, v.group.residueNumber)
    ensures Scan(contact, cutoff, grid, visits, target) == target
  {
    if visits != [] {
      var init := visits[..|visits| - 1];
      assert forall w | w in init :: w in visits;
      ScanOfPresentGroups(contact, cutoff, grid, init, target);
      assert visits[|visits| - 1] in visits;
    }
  }

  /**
   * On a well-formed model the pass against the model itself adds nothing:
   * every candidate is already present.
   */
  lemma LigandPassOnItselfAddsNothing(contact: ContactTest, cutoff: real, model: seq<Chain>)
    requires WellFormedModel(model)
    ensures LigandPass(contact, cutoff, model, model) == model
  {
    var visits := ModelVisits(model);
    forall v | v in visits
      ensures HasGroup(model, v.group.chainId, v.group.residueNumber)
    {
      var j :| 0 <= j < |model| && model[j] == v.source;
      var k :| 0 <= k < |model[j].groups| && model[j].groups[k] == v.group;
      assert v.group.chainId == model[j].id;
      var i := ChainById(model, model[j].id).value;
      assert i == j;
      assert SamePosition(model[j].groups[k].residueNumber, v.group.residueNumber);
    }
    ScanOfPresentGroups(contact, cutoff, AllAtoms(model), visits, model);
  }

  /**
   * The pass only appends, and everything it appends is a non-water,
   * non-standard group of the full model that touches the reduced model as
   * it was before the pass, whose position was absent from it, and that sits
   * in the chain with its source chain's id.
   */
  lemma LigandPassAddsOnlyNearbyLigands(contact: ContactTest, cutoff: real, full: seq<Chain>, reduced: seq<Chain>)
    ensures Extends(reduced, LigandPass(contact, cutoff, full, reduced))
    ensures var r := LigandPass(contact, cutoff, full, reduced);
      forall i, k | AddedAt(reduced, r, i, k) ::
        && IsLigandCandidate(r[i].groups[k])
        && contact(cutoff, AllAtoms(reduced), r[i].groups[k].atoms)
        && !HasGroup(reduced, r[i].groups[k].chainId, r[i].groups[k].residueNumber)
        && exists j | 0 <= j < |full| :: r[i].groups[k] in full[j].groups && full[j].id == r[i].id
  {
    var grid := AllAtoms(reduced);
    var visits := ModelVisits(full);
    var r := LigandPass(contact, cutoff, full, reduced);
    ScanExtends(contact, cutoff, grid, visits, reduced);
    forall i, k | AddedAt(reduced, r, i, k)
      ensures && IsLigandCandidate(r[i].groups[k])
              && contact(cutoff, AllAtoms(reduced), r[i].groups[k].atoms)
              && !HasGroup(reduced, r[i].groups[k].chainId, r[i].groups[k].residueNumber)
              && exists j | 0 <= j < |full| :: r[i].groups[k] in full[j].groups && full[j].id == r[i].id
    {
      ScanAddsOnlyAdmitted(contact, cutoff, grid, visits, reduced, i, k);
      var v :| v in visits && v.group == r[i].groups[k] && v.source.id == r[i].id;
      var j :| 0 <= j < |full| && full[j] == v.source;
      assert r[i].groups[k] in full[j].groups;
    }
  }

  /**
   * Conversely, every non-water, non-standard group of the full model that
   * touches the reduced model and names its own chain is present after the
   * pass, added or already there.
   */
  lemma LigandPassKeepsNearbyLigands(contact: ContactTest, cutoff: real, full: seq<Chain>, reduced: seq<Chain>, j: nat, k: nat)
    requires j < |full| && k < |full[j].groups|
    requires IsLigandCandidate(full[j].groups[k]) && full[j].groups[k].chainId == full[j].id
    requires contact(cutoff, AllAtoms(reduced), full[j].groups[k].atoms)
    ensures HasGroup(LigandPass(contact, cutoff, full, reduced), full[j].id, full[j].groups[k].residueNumber)
  {
    ModelVisitsCover(full, j, k);
    ScanKeepsNearbyLigands(contact, cutoff, AllAtoms(reduced), ModelVisits(full), reduced);
  }

  /** When the full model's groups name their own chains, the pass adds no second group at a position. */
  lemma LigandPassKeepsPositionsDistinct(contact: ContactTest, cutoff: real, full: seq<Chain>, reduced: seq<Chain>)
    requires DistinctPositions(reduced)
    requires forall j, k | 0 <= j < |full| && 0 <= k < |full[j].groups| :: full[j].groups[k].chainId == full[j].id
    ensures DistinctPositions(LigandPass(contact, cutoff, full, reduced))
  {
    var visits := ModelVisits(full);
    forall v | v in visits
      ensures v.group.chainId == v.source.id
    {
      var j :| 0 <= j < |full| && full[j] == v.source;
      var k :| 0 <= k < |full[j].groups| && full[j].groups[k] == v.group;
    }
    ScanKeepsPositionsDistinct(contact, cutoff, AllAtoms(reduced), visits, reduced);
  }

  lemma {:induction false} ScanAppend(contact: ContactTest, cutoff: real, grid: seq<Atom>, a: seq<Visit>, b: seq<Visit>, target: seq<Chain>)
    ensures Scan(contact, cutoff, grid, a + b, target) == Scan(contact, cutoff, grid, b, Scan(contact, cutoff, grid, a, target))
  {
    if b == [] {
      assert a + b == a;
    } else {
      ScanAppend(contact, cutoff, grid, a, b[..|b| - 1], target);
      assert (a + b)[..|a + b| - 1] == a + b[..|b| - 1];
    }
  }

  /** Scanning one more chain of a model is the scan of that chain's groups. */
  lemma ModelScanStep(contact: ContactTest, cutoff: real, grid: seq<Atom>, source: seq<Chain>, ci: nat, target: seq<Chain>)
    requires ci < |source|
    ensures Scan(contact, cutoff, grid, ModelVisits(source[..ci + 1]), target)
         == Scan(contact, cutoff, grid, ChainVisits(source[ci], source[ci].groups), Scan(contact, cutoff, grid, ModelVisits(source[..ci]), target))
  {
    assert source[..ci + 1][..ci] == source[..ci];
    ScanAppend(contact, cutoff, grid, ModelVisits(source[..ci]), ChainVisits(source[ci], source[ci].groups), target);
  }

  /** Scanning one more group of a chain is one more step. */
  lemma ChainScanStep(contact: ContactTest, cutoff: real, grid: seq<Atom>, c: Chain, gi: nat, target: seq<Chain>)
    requires gi < |c.groups|
    ensures Scan(contact, cutoff, grid, ChainVisits(c, c.groups[..gi + 1]), target)
         == Step(contact, cutoff, grid, Scan(contact, cutoff, grid, ChainVisits(c, c.groups[..gi]), target), Visit(c, c.groups[gi]))
  {
    assert c.groups[..gi + 1][..gi] == c.groups[..gi];
  }

  /**
   * copyLigandsByProximity(full, reduced, cutoff, fromModel, toModel): the
   * scan of the full model, appending to the reduced model in place.
   */
  method CopyLigandsByProximity(full: Structure, reduced: Structure, cutoff: real, fromModel: nat, toModel: nat, contact: ContactTest)
    requires fromModel < |full.models| && toModel < |reduced.models|
    modifies reduced`models
    ensures reduced.models
         == old(reduced.models)[toModel := LigandPass(contact, cutoff, old(full.models[fromModel]), old(reduced.models[toModel]))]
  {
    var source := full.models[fromModel];
    var grid := AllAtoms(reduced.models[toModel]);
    ghost var target := reduced.models[toModel];
    ghost var before := reduced.models;
    for ci := 0 to |source|
      invariant |reduced.models| == |before|
      invariant reduced.models == before[toModel := Scan(contact, cutoff, grid, ModelVisits(source[..ci]), target)]
    {
      ModelScanStep(contact, cutoff, grid, source, ci, target);
      CopyChainLigands(source[ci], reduced, toModel, grid, cutoff, contact);
    }
    assert source[..|source|] == source;
  }

  /**
   * The inner loop of the scan, over the groups of one chain of the full
   * model. The chain a ligand goes into is looked up (or created) at the
   * first admitted ligand and kept for the later ones.
   */
  method CopyChainLigands(fullChain: Chain, reduced: Structure, toModel: nat, grid: seq<Atom>, cutoff: real, contact: ContactTest)
    requires toModel < |reduced.models|
    modifies reduced`models
    ensures reduced.models
         == old(reduced.models)[toModel := Scan(contact, cutoff, grid, ChainVisits(fullChain, fullChain.groups), old(reduced.models[toModel]))]
  {
    var chainId := fullChain.id;
    var reducedChain: Option<nat> := None;
    ghost var target := reduced.models[toModel];
    ghost var before := reduced.models;
    for gi := 0 to |fullChain.groups|
      invariant |reduced.models| == |before|
      invariant reduced.models == before[toModel := Scan(contact, cutoff, grid, ChainVisits(fullChain, fullChain.groups[..gi]), target)]
      invariant reducedChain.Some? ==> ChainById(reduced.models[toModel], chainId) == reducedChain
    {
      var g := fullChain.groups[gi];
      ChainScanStep(contact, cutoff, grid, fullChain, gi, target);

      if g.isWater {
        continue;
      }
      if g.chemComp.Some? && g.chemComp.value.isStandard {
        continue;
      }
      if !contact(cutoff, grid, g.atoms) {
        continue;
      }
      if HasGroup(reduced.models[toModel], g.chainId, g.residueNumber) {
        continue;
      }

      reducedChain := AttachLigand(reduced, toModel, fullChain, g, reducedChain);
    }
    assert fullChain.groups[..|fullChain.groups|] == fullChain.groups;
  }

  /**
   * Adds one admitted ligand to the reduced model: to the cached chain, or
   * to the chain found by id, or to a new chain made from the full chain's
   * id and SEQRES data. Returns the (possibly filled) cache.
   */
  method AttachLigand(reduced: Structure, toModel: nat, fullChain: Chain, g: Group, cache: Option<nat>) returns (cache': Option<nat>)
    requires toModel < |reduced.models|
    requires cache.Some? ==> ChainById(reduced.models[toModel], fullChain.id) == cache
    modifies reduced`models
    ensures reduced.models == old(reduced.models)[toModel := Attach(old(reduced.models[toModel]), fullChain, g)]
    ensures cache'.Some? && ChainById(reduced.models[toModel], fullChain.id) == cache'
  {
    ghost var cur := reduced.models[toModel];
    cache' := cache;
    if cache'.None? {
      cache' := ChainById(reduced.models[toModel], fullChain.id);
    }
    if cache'.None? {
      reduced.AddChain(toModel, Chain(fullChain.id, None, [], fullChain.seqResGroups, fullChain.seqMisMatches));
      cache' := Some(|reduced.models[toModel]| - 1);
      ChainByIdAt(reduced.models[toModel], fullChain.id, |cur|);
    }
    ghost var mid := reduced.models[toModel];
    reduced.AddGroup(toModel, cache'.value, g);
    assert reduced.models[toModel] == Attach(cur, fullChain, g);
    assert Extends(mid, reduced.models[toModel]);
    ChainByIdPersists(mid, reduced.models[toModel], fullChain.id);
  }

  /**
   * copyLigandsByProximity(full, reduced): the pass with the default cutoff
   * on every model of the reduced structure, each from the model of the same
   * number.
   */
  method CopyLigandsByProximityAllModels(full: Structure, reduced: Structure, contact: ContactTest)
    requires |full.models| >= |reduced.models|
    modifies reduced`models
    ensures |reduced.models| == |old(reduced.models)|
    ensures forall m | 0 <= m < |reduced.models| ::
      reduced.models[m] == LigandPass(contact, DefaultLigandProximityCutoff, old(full.models[m]), old(reduced.models[m]))
  {
    ghost var fullBefore := full.models;
    ghost var reducedBefore := reduced.models;
    for m := 0 to |reduced.models|
      invariant |reduced.models| == |reducedBefore|
      invariant |full.models| == |fullBefore|
      invariant forall j | m <= j < |full.models| :: full.models[j] == fullBefore[j]
      invariant forall j | m <= j < |reduced.models| :: reduced.models[j] == reducedBefore[j]
      invariant forall j | 0 <= j < m ::
        reduced.models[j] == LigandPass(contact, DefaultLigandProximityCutoff, fullBefore[j], reducedBefore[j])
    {
      CopyLigandsByProximity(full, reduced, DefaultLigandProximityCutoff, m, m, contact);
    }
  }
}
