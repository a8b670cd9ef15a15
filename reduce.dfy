/**
 * SubstructureIdentifier.reduce: a new structure holding, model by model,
 * the chains and groups the ranges select, followed by the ligand pass.
 * The selection and placement are specified as functions over a model; the
 * methods build the new structure in place.
 */
module Reduction {
  import opened Wrappers
  import opened JavaText
  import opened Ranges
  import opened Structures
  import opened Ligands
  import opened Identifiers

  /**
   * Chain.getGroupsByPDB(start, end) for a bounded range: the groups between
   * the bounds, None where it throws because a bound is not in the chain.
   */
  type GroupSelector = (Chain, Option<ResidueNumber>, Option<ResidueNumber>) -> Option<seq<Group>>

  /**
   * Why reduce stops: a chain token that is neither a chain name nor an
   * integer (StructureException), a chain index past the model's chains
   * (getChainByIndex's IndexOutOfBoundsException), or bounds the chain does
   * not hold (getGroupsByPDB's StructureException).
   */
  datatype ReduceError =
    | UnrecognizedChain(chainName: string)
    | ChainIndexOutOfRange(index: int)
    | GroupsNotFound(range: ResidueRange)

  /** Some chain of the model carries the name. */
  predicate NamedIn(model: seq<Chain>, name: string) {
    exists j | 0 <= j < |model| :: model[j].name == Some(name)
  }

  /**
   * The chain a range's token designates: "_" is the first chain; any other
   * token is looked up as a chain name, and failing that read as a chain
   * index.
   */
  function ResolveChain(model: seq<Chain>, token: string): (r: Result<nat, ReduceError>)
    ensures r.Ok? ==> r.value < |model|
    ensures token == Wildcard ==> r == if |model| > 0 then Ok(0) else Err(ChainIndexOutOfRange(0))
    ensures token != Wildcard && NamedIn(model, token) ==>
      && r.Ok?
      && model[r.value].name == Some(token)
      && forall j | 0 <= j < r.value :: model[j].name != Some(token)
    ensures token != Wildcard && !NamedIn(model, token) ==>
      match ParseInt(token)
      case None => r == Err(UnrecognizedChain(token))
      case Some(n) => r == if 0 <= n < |model| then Ok(n) else Err(ChainIndexOutOfRange(n))
  {
    if token == Wildcard then
      if |model| > 0 then Ok(0) else Err(ChainIndexOutOfRange(0))
    else
      match ChainByName(model, Some(token))
      case Some(i) => Ok(i)
      case None =>
        match ParseInt(token)
        case None => Err(UnrecognizedChain(token))
        case Some(n) => if 0 <= n < |model| then Ok(n) else Err(ChainIndexOutOfRange(n))
  }

  /** A name wins over an index: a chain named "1" is chosen over the chain at index 1. */
  lemma NameBeforeIndex(a: Chain, b: Chain, c: Chain)
    requires a.name == Some("B") && b.name == Some("1") && c.name == Some("C")
    ensures ResolveChain([a, b, c], "1") == Ok(1)
    ensures ResolveChain([b, a, c], "1") == Ok(0)
    ensures ResolveChain([a, b, c], "2") == Ok(2)
    ensures ResolveChain([a, b, c], "3") == Err(ChainIndexOutOfRange(3))
    ensures ResolveChain([a, b, c], "X") == Err(UnrecognizedChain("X"))
    ensures ResolveChain([a, b, c], "_") == Ok(0)
  {
    ParseIntOfDecimal(2);
    ParseIntOfDecimal(3);
    assert Decimal(2) == "2" && Decimal(3) == "3";
    assert !NamedIn([a, b, c], "2") && !NamedIn([a, b, c], "3") && !NamedIn([a, b, c], "X");
    assert ParseInt("X").None?;
  }

  /** The bounds reduce uses: under "_" they carry the chosen chain's name (setChainName); otherwise as given. */
  function Bounds(range: ResidueRange, chain: Chain): (r: (Option<ResidueNumber>, Option<ResidueNumber>))
    ensures r.0.None? <==> range.start.None?
    ensures r.1.None? <==> range.end.None?
    ensures r.0.Some? ==> SamePosition(r.0.value, range.start.value)
    ensures r.1.Some? ==> SamePosition(r.1.value, range.end.value)
    ensures range.chainName == Wildcard ==> (r.0.Some? ==> r.0.value.chainName == chain.name) && (r.1.Some? ==> r.1.value.chainName == chain.name)
    ensures range.chainName != Wildcard ==> r == (range.start, range.end)
  {
    if range.chainName == Wildcard then (WithChain(range.start, chain.name), WithChain(range.end, chain.name))
    else (range.start, range.end)
  }

  /** A chain of the input model and the groups a range takes from it. */
  datatype Selection = Selection(chain: Chain, groups: seq<Group>)

  /** One range: its chain, and all its groups when both bounds are open, the groups between the bounds otherwise. */
  function ResolveRange(model: seq<Chain>, range: ResidueRange, select: GroupSelector): (r: Result<Selection, ReduceError>)
    ensures ResolveChain(model, range.chainName).Err? ==> r == Err(ResolveChain(model, range.chainName).error)
    ensures r.Ok? ==> ResolveChain(model, range.chainName).Ok? && r.value.chain == model[ResolveChain(model, range.chainName).value]
    ensures r.Ok? && range.start.None? && range.end.None? ==> r.value.groups == r.value.chain.groups
    ensures ResolveChain(model, range.chainName).Ok? && (range.start.Some? || range.end.Some?) ==>
      var chain := model[ResolveChain(model, range.chainName).value];
      var (start, end) := Bounds(range, chain);
      match select(chain, start, end)
      case None => r == Err(GroupsNotFound(range))
      case Some(gs) => r == Ok(Selection(chain, gs))
  {
    match ResolveChain(model, range.chainName)
    case Err(e) => Err(e)
    case Ok(i) =>
      var chain := model[i];
      var (start, end) := Bounds(range, chain);
      if start.None? && end.None? then Ok(Selection(chain, chain.groups))
      else
        match select(chain, start, end)
        case None => Err(GroupsNotFound(range))
        case Some(gs) => Ok(Selection(chain, gs))
  }

  /** All ranges in order, stopping at the first that fails. */
  function ResolveAll(model: seq<Chain>, ranges: seq<ResidueRange>, select: GroupSelector): Result<seq<Selection>, ReduceError> {
    MapUntilError(ranges, range => ResolveRange(model, range, select))
  }

  /** The chain reduce creates for a selection whose chain is not yet in the output. */
  function NewChainFor(sel: Selection): Chain {
    Chain(sel.chain.id, sel.chain.name, sel.groups, sel.chain.seqResGroups, sel.chain.seqMisMatches)
  }

  /** A selection goes into the output chain of the same name, or into a new chain after the others. */
  function Place(out: seq<Chain>, sel: Selection): seq<Chain> {
    match ChainByName(out, sel.chain.name)
    case None => out + [NewChainFor(sel)]
    case Some(i) => out[i := out[i].(groups := out[i].groups + sel.groups)]
  }

  /** The output model before the ligand pass: the selections placed in order. */
  function Assemble(sels: seq<Selection>): seq<Chain> {
    if sels == [] then [] else Place(Assemble(sels[..|sels| - 1]), sels[|sels| - 1])
  }

  /**
   * The output chain for a selected chain name. When the previous range
   * ended in a chain whose id equals this name, the lookup uses that id;
   * it is then the same text, so the result is always the lookup by name.
   */
  function OutputChain(out: seq<Chain>, prevChainId: Option<string>, name: Option<string>): (r: Option<nat>)
    ensures r == ChainByName(out, name)
  {
    if prevChainId.Some? && Some(prevChainId.value) == name then ChainByName(out, prevChainId)
    else ChainByName(out, name)
  }

  /**
   * The chain names of the output in order: each selected name at its first
   * mention, and one entry for every selected chain without a name.
   */
  function FirstMentions(sels: seq<Selection>): (names: seq<Option<string>>)
    ensures forall i, j | 0 <= i < j < |names| :: names[i].Some? ==> names[i] != names[j]
    ensures forall k | 0 <= k < |sels| :: sels[k].chain.name in names
  {
    if sels == [] then []
    else
      var init := FirstMentions(sels[..|sels| - 1]);
      var name := sels[|sels| - 1].chain.name;
      assert forall k | 0 <= k < |sels| - 1 :: sels[k] == sels[..|sels| - 1][k];
      if name.Some? && name in init then init else init + [name]
  }

  /** Every listed name is the name of some selected chain: the list invents nothing. */
  lemma {:induction false} FirstMentionsFromSelections(sels: seq<Selection>)
    ensures forall i | 0 <= i < |FirstMentions(sels)| :: exists k | 0 <= k < |sels| :: sels[k].chain.name == FirstMentions(sels)[i]
  {
    if sels != [] {
      var init := sels[..|sels| - 1];
      FirstMentionsFromSelections(init);
      var names := FirstMentions(sels);
      var last := sels[|sels| - 1].chain.name;
      assert names == FirstMentions(init) || names == FirstMentions(init) + [last];
      forall i | 0 <= i < |names|
        ensures exists k | 0 <= k < |sels| :: sels[k].chain.name == names[i]
      {
        if i < |FirstMentions(init)| {
          assert names[i] == FirstMentions(init)[i];
          var k :| 0 <= k < |init| && init[k].chain.name == names[i];
          assert sels[k] == init[k];
        } else {
          assert sels[|sels| - 1].chain.name == names[i];
        }
      }
    } else {
      assert FirstMentions(sels) == [];
    }
  }

  /** The groups all selections of a chain name contribute, in range order. */
  function Gathered(sels: seq<Selection>, name: Option<string>): seq<Group> {
    if sels == [] then []
    else
      var last := sels[|sels| - 1];
      Gathered(sels[..|sels| - 1], name) + (if last.chain.name == name then last.groups else [])
  }

  lemma {:induction false} GatheredOfUnmentioned(sels: seq<Selection>, name: Option<string>)
    requires forall k | 0 <= k < |sels| :: sels[k].chain.name != name
    ensures Gathered(sels, name) == []
  {
    if sels != [] {
      GatheredOfUnmentioned(sels[..|sels| - 1], name);
    }
  }

  /** Output chains appear in order of first mention, one per name, one per unnamed selection. */
  predicate InMentionOrder(sels: seq<Selection>) {
    var out := Assemble(sels);
    var names := FirstMentions(sels);
    |out| == |names| && forall i | 0 <= i < |out| :: out[i].name == names[i]
  }

  lemma AssembleOrderStep(init: seq<Selection>, last: Selection)
    requires InMentionOrder(init)
    ensures InMentionOrder(init + [last])
  {
    var sels := init + [last];
    assert sels[..|sels| - 1] == init && sels[|sels| - 1] == last;
    var out0 := Assemble(init);
    var names := FirstMentions(init);
    var name := last.chain.name;
    assert Assemble(sels) == Place(out0, last);
    if name.Some? && name in names {
      assert FirstMentions(sels) == names;
      var j :| 0 <= j < |names| && names[j] == name;
      assert out0[j].name == name;
      var i := ChainByName(out0, name).value;
      ChainByNameUpdate(out0, i, out0[i].(groups := out0[i].groups + last.groups), name);
    } else {
      assert FirstMentions(sels) == names + [name];
      assert ChainByName(out0, name).None?;
    }
  }

  lemma {:induction false} AssembleOrder(sels: seq<Selection>)
    ensures InMentionOrder(sels)
  {
    if sels != [] {
      var init := sels[..|sels| - 1];
      assert sels == init + [sels[|sels| - 1]];
      AssembleOrder(init);
      AssembleOrderStep(init, sels[|sels| - 1]);
    }
  }

  /** The selection of sels at f is the first naming the chain. */
  predicate FirstMention(sels: seq<Selection>, f: int, name: string) {
    0 <= f < |sels| && sels[f].chain.name == Some(name) && forall e | 0 <= e < f :: sels[e].chain.name != Some(name)
  }

  /**
   * A named chain is in the output exactly when some range selected it; it
   * then holds the groups of all ranges on that chain name in range order,
   * under the id, name and SEQRES data of the chain first selected.
   */
  predicate GathersInto(sels: seq<Selection>, name: string) {
    var out := Assemble(sels);
    match ChainByName(out, Some(name))
    case None => forall k | 0 <= k < |sels| :: sels[k].chain.name != Some(name)
    case Some(i) =>
      && out[i].groups == Gathered(sels, Some(name))
      && exists f | 0 <= f < |sels| :: FirstMention(sels, f, name) && out[i] == NewChainFor(sels[f]).(groups := out[i].groups)
  }

  /** A selection of the chain itself: it opens the output chain or extends it. */
  lemma GathersIntoNamed(init: seq<Selection>, last: Selection, name: string)
    requires last.chain.name == Some(name) && GathersInto(init, name)
    ensures GathersInto(init + [last], name)
  {
    var sels := init + [last];
    assert sels[..|sels| - 1] == init && sels[|sels| - 1] == last;
    var out0 := Assemble(init);
    var out := Assemble(sels);
    assert out == Place(out0, last);
    assert Gathered(sels, Some(name)) == Gathered(init, Some(name)) + last.groups;
    match ChainByName(out0, Some(name))
    case None =>
      assert forall k | 0 <= k < |init| :: init[k].chain.name != Some(name);
      GatheredOfUnmentioned(init, Some(name));
      assert out == out0 + [NewChainFor(last)];
      ChainByNameAt(out, Some(name), |out0|);
      assert FirstMention(sels, |init|, name);
      assert out[|out0|] == NewChainFor(sels[|init|]).(groups := out[|out0|].groups);
    case Some(i) =>
      var c := out0[i].(groups := out0[i].groups + last.groups);
      assert out == out0[i := c];
      ChainByNameUpdate(out0, i, c, Some(name));
      var f :| 0 <= f < |init| && FirstMention(init, f, name) && out0[i] == NewChainFor(init[f]).(groups := out0[i].groups);
      assert FirstMention(sels, f, name);
      assert out[i] == NewChainFor(sels[f]).(groups := out[i].groups);
  }

  /** A selection of another chain leaves the output chain of this name alone. */
  lemma GathersIntoOther(init: seq<Selection>, last: Selection, name: string)
    requires last.chain.name != Some(name) && GathersInto(init, name)
    ensures GathersInto(init + [last], name)
  {
    var sels := init + [last];
    assert sels[..|sels| - 1] == init && sels[|sels| - 1] == last;
    var out0 := Assemble(init);
    var out := Assemble(sels);
    assert out == Place(out0, last);
    assert Gathered(sels, Some(name)) == Gathered(init, Some(name));
    assert ChainByName(out, Some(name)) == ChainByName(out0, Some(name)) by {
      match ChainByName(out0, last.chain.name)
      case None =>
        ChainByNameAppend(out0, NewChainFor(last), Some(name));
      case Some(a) =>
        ChainByNameUpdate(out0, a, out0[a].(groups := out0[a].groups + last.groups), Some(name));
    }
    match ChainByName(out0, Some(name))
    case None =>
      assert forall k | 0 <= k < |init| :: init[k].chain.name != Some(name);
    case Some(i) =>
      assert out[i] == out0[i] by {
        match ChainByName(out0, last.chain.name)
        case None =>
        case Some(a) =>
          assert i != a;
      }
      var f :| 0 <= f < |init| && FirstMention(init, f, name) && out0[i] == NewChainFor(init[f]).(groups := out0[i].groups);
      assert FirstMention(sels, f, name);
  }

  lemma {:induction false} AssembleGathers(sels: seq<Selection>, name: string)
    ensures GathersInto(sels, name)
  {
    if sels != [] {
      var init := sels[..|sels| - 1];
      var last := sels[|sels| - 1];
      assert sels == init + [last];
      AssembleGathers(init, name);
      if last.chain.name == Some(name) {
        GathersIntoNamed(init, last, name);
      } else {
        GathersIntoOther(init, last, name);
      }
    }
  }

  /**
   * A selection of a chain without a name always opens a chain of its own:
   * the output holds that chain's id, SEQRES data and exactly that
   * selection's groups.
   */
  lemma {:induction false} AssembleKeepsUnnamed(sels: seq<Selection>, k: nat)
    requires k < |sels| && sels[k].chain.name.None?
    ensures NewChainFor(sels[k]) in Assemble(sels)
  {
    var init := sels[..|sels| - 1];
    var last := sels[|sels| - 1];
    var out0 := Assemble(init);
    if k == |sels| - 1 {
      assert ChainByName(out0, last.chain.name).None?;
      assert Assemble(sels) == out0 + [NewChainFor(last)];
    } else {
      assert sels[k] == init[k];
      AssembleKeepsUnnamed(init, k);
      var j :| 0 <= j < |out0| && out0[j] == NewChainFor(sels[k]);
      match ChainByName(out0, last.chain.name)
      case None =>
        assert Assemble(sels)[j] == out0[j];
      case Some(i) =>
        assert out0[i].name.Some?;
        assert Assemble(sels)[j] == out0[j];
    }
  }

  /** One model of the output: the model itself when there are no ranges, else the placed selections. */
  function ReduceModel(model: seq<Chain>, ranges: seq<ResidueRange>, select: GroupSelector): Result<seq<Chain>, ReduceError> {
    if ranges == [] then Ok(model)
    else
      match ResolveAll(model, ranges, select)
      case Err(e) => Err(e)
      case Ok(sels) => Ok(Assemble(sels))
  }

  /**
   * One model: with no ranges, the model as it is; otherwise, when every
   * range resolves, their selections placed in range order, and else the
   * error of the first range that fails.
   */
  lemma ReduceModelSpec(model: seq<Chain>, ranges: seq<ResidueRange>, select: GroupSelector)
    ensures ranges == [] ==> ReduceModel(model, ranges, select) == Ok(model)
    ensures ranges != [] ==>
      (ReduceModel(model, ranges, select).Ok? <==> forall k | 0 <= k < |ranges| :: ResolveRange(model, ranges[k], select).Ok?)
    ensures ranges != [] && ReduceModel(model, ranges, select).Ok? ==>
      exists sels: seq<Selection> ::
        && |sels| == |ranges|
        && (forall k | 0 <= k < |ranges| :: ResolveRange(model, ranges[k], select) == Ok(sels[k]))
        && ReduceModel(model, ranges, select).value == Assemble(sels)
    ensures forall k | 0 <= k < |ranges| && ResolveRange(model, ranges[k], select).Err? &&
        (forall j | 0 <= j < k :: ResolveRange(model, ranges[j], select).Ok?) ::
      ReduceModel(model, ranges, select) == Err(ResolveRange(model, ranges[k], select).error)
  {
    var f := range => ResolveRange(model, range, select);
    MapUntilErrorSucceeds(ranges, f);
    forall k | 0 <= k < |ranges| && ResolveRange(model, ranges[k], select).Err? &&
        (forall j | 0 <= j < k :: ResolveRange(model, ranges[j], select).Ok?)
      ensures ReduceModel(model, ranges, select) == Err(ResolveRange(model, ranges[k], select).error)
    {
      MapUntilErrorFirstError(ranges, f, k);
    }
    if ranges != [] && ReduceModel(model, ranges, select).Ok? {
      var sels := ResolveAll(model, ranges, select).value;
      assert ReduceModel(model, ranges, select).value == Assemble(sels);
    }
  }

  /** One model of the output with its nearby ligands. */
  function ReduceAndAddLigands(model: seq<Chain>, ranges: seq<ResidueRange>, select: GroupSelector, contact: ContactTest): Result<seq<Chain>, ReduceError> {
    match ReduceModel(model, ranges, select)
    case Err(e) => Err(e)
    case Ok(chains) => Ok(LigandPass(contact, DefaultLigandProximityCutoff, model, chains))
  }

  /** The models of the reduced structure, model by model; the first model that fails decides the error. */
  function ReduceModels(models: seq<seq<Chain>>, ranges: seq<ResidueRange>, select: GroupSelector, contact: ContactTest): Result<seq<seq<Chain>>, ReduceError> {
    MapUntilError(models, model => ReduceAndAddLigands(model, ranges, select, contact))
  }

  /**
   * The structure reduces exactly when every model does, into one output
   * model per input model, in order, each the model's selection widened by
   * the ligand pass against that model; otherwise the first model that fails
   * decides the error.
   */
  lemma ReduceModelsSpec(models: seq<seq<Chain>>, ranges: seq<ResidueRange>, select: GroupSelector, contact: ContactTest)
    ensures ReduceModels(models, ranges, select, contact).Ok? <==> forall m | 0 <= m < |models| :: ReduceModel(models[m], ranges, select).Ok?
    ensures ReduceModels(models, ranges, select, contact).Ok? ==>
      var out := ReduceModels(models, ranges, select, contact).value;
      && |out| == |models|
      && forall m | 0 <= m < |models| ::
        out[m] == LigandPass(contact, DefaultLigandProximityCutoff, models[m], ReduceModel(models[m], ranges, select).value)
    ensures forall m | 0 <= m < |models| && ReduceModel(models[m], ranges, select).Err? &&
        (forall j | 0 <= j < m :: ReduceModel(models[j], ranges, select).Ok?) ::
      ReduceModels(models, ranges, select, contact) == Err(ReduceModel(models[m], ranges, select).error)
  {
    var f := model => ReduceAndAddLigands(model, ranges, select, contact);
    MapUntilErrorSucceeds(models, f);
    forall m | 0 <= m < |models| && ReduceModel(models[m], ranges, select).Err? &&
        (forall j | 0 <= j < m :: ReduceModel(models[j], ranges, select).Ok?)
      ensures ReduceModels(models, ranges, select, contact) == Err(ReduceModel(models[m], ranges, select).error)
    {
      MapUntilErrorFirstError(models, f, m);
    }
  }

  /**
   * Without ranges the reduced structure holds the input's models: on
   * well-formed models the ligand pass finds every candidate already there.
   */
  lemma ReduceWithoutRanges(models: seq<seq<Chain>>, select: GroupSelector, contact: ContactTest)
    requires forall m | 0 <= m < |models| :: WellFormedModel(models[m])
    ensures ReduceModels(models, [], select, contact) == Ok(models)
  {
    var r := ReduceModels(models, [], select, contact);
    ReduceModelsSpec(models, [], select, contact);
    assert forall m | 0 <= m < |models| :: ReduceModel(models[m], [], select) == Ok(models[m]);
    forall m | 0 <= m < |models|
      ensures r.value[m] == models[m]
    {
      LigandPassOnItselfAddsNothing(contact, DefaultLigandProximityCutoff, models[m]);
    }
    assert r.value == models;
  }

  /** Appends the groups, in order, to one chain of one output model. */
  method AddGroups(s: Structure, model: nat, chain: nat, gs: seq<Group>)
    requires model < |s.models| && chain < |s.models[model]|
    modifies s`models
    ensures s.models == old(s.models)[model := old(s.models[model])[chain := old(s.models[model][chain]).(groups := old(s.models[model][chain].groups) + gs)]]
  {
    ghost var m0: seq<seq<Chain>> := s.models;
    ghost var row: seq<Chain> := m0[model];
    ghost var c0: Chain := row[chain];
    assert c0.groups + gs[..0] == c0.groups;
    assert c0.(groups := c0.groups + gs[..0]) == c0;
    assert row[chain := c0] == row;
    assert m0[model := row] == m0;
    for k := 0 to |gs|
      invariant s.models == m0[model := row[chain := c0.(groups := c0.groups + gs[..k])]]
    {
      ghost var cur := c0.(groups := c0.groups + gs[..k]);
      s.AddGroup(model, chain, gs[k]);
      assert c0.groups + gs[..k + 1] == cur.groups + [gs[k]];
      assert row[chain := cur][chain := cur.(groups := cur.groups + [gs[k]])] == row[chain := c0.(groups := c0.groups + gs[..k + 1])];
    }
    assert gs[..|gs|] == gs;
  }

  /**
   * The chain and the groups reduce takes for one range: "_" means the first
   * chain and stamps its name on the bounds; another token is a chain name,
   * or failing that an index; open bounds take the whole chain. This is the
   * range loop's body as it runs, leaving at the first exception; its
   * contract proves it agrees with the specification ResolveRange.
   */
  method SelectGroups(model: seq<Chain>, range: ResidueRange, select: GroupSelector) returns (r: Result<Selection, ReduceError>)
    ensures r == ResolveRange(model, range, select)
  {
    var chain: Chain;
    var start, end := range.start, range.end;
    if range.chainName == Wildcard {
      if |model| == 0 {
        return Err(ChainIndexOutOfRange(0));
      }
      chain := model[0];
      start := WithChain(start, chain.name);
      end := WithChain(end, chain.name);
    } else {
      var byName := ChainByName(model, Some(range.chainName));
      if byName.Some? {
        chain := model[byName.value];
      } else {
        var chainNum := ParseInt(range.chainName);
        if chainNum.None? {
          return Err(UnrecognizedChain(range.chainName));
        }
        if !(0 <= chainNum.value < |model|) {
          return Err(ChainIndexOutOfRange(chainNum.value));
        }
        chain := model[chainNum.value];
      }
    }
    if start.None? && end.None? {
      return Ok(Selection(chain, chain.groups));
    }
    var found := select(chain, start, end);
    if found.None? {
      return Err(GroupsNotFound(range));
    }
    return Ok(Selection(chain, found.value));
  }

  /**
   * Puts a selection into the output model: into the chain of that name
   * (looked up through the previous chain id when it matches), or into a
   * new chain. Returns the id of the chain used.
   */
  method PlaceSelection(newS: Structure, modelNr: nat, prevChainId: Option<string>, sel: Selection) returns (chainId: string)
    requires modelNr < |newS.models|
    modifies newS`models
    ensures newS.models == old(newS.models)[modelNr := Place(old(newS.models[modelNr]), sel)]
  {
    ghost var out := newS.models[modelNr];
    var c := OutputChain(newS.models[modelNr], prevChainId, sel.chain.name);
    if c.None? {
      newS.AddChain(modelNr, Chain(sel.chain.id, sel.chain.name, [], sel.chain.seqResGroups, sel.chain.seqMisMatches));
      c := Some(|newS.models[modelNr]| - 1);
      ghost var empty := Chain(sel.chain.id, sel.chain.name, [], sel.chain.seqResGroups, sel.chain.seqMisMatches);
      AddGroups(newS, modelNr, c.value, sel.groups);
      assert [] + sel.groups == sel.groups;
      assert empty.(groups := [] + sel.groups) == NewChainFor(sel);
      assert (out + [empty])[|out| := NewChainFor(sel)] == out + [NewChainFor(sel)];
    } else {
      AddGroups(newS, modelNr, c.value, sel.groups);
    }
    chainId := newS.models[modelNr][c.value].id;
  }

  /**
   * The range loop of reduce for one model, filling the empty output model
   * in place; on failure, the error of the first range that fails.
   */
  method ReduceRanges(newS: Structure, modelNr: nat, model: seq<Chain>, ranges: seq<ResidueRange>, select: GroupSelector)
    returns (err: Option<ReduceError>)
    requires modelNr < |newS.models| && newS.models[modelNr] == []
    modifies newS`models
    ensures err.None? <==> ResolveAll(model, ranges, select).Ok?
    ensures err.Some? ==> ResolveAll(model, ranges, select) == Err(err.value)
    ensures err.None? ==> newS.models == old(newS.models)[modelNr := Assemble(ResolveAll(model, ranges, select).value)]
  {
    var prevChainId: Option<string> := None;
    ghost var sels: seq<Selection> := [];
    ghost var before := newS.models;
    for k := 0 to |ranges|
      invariant |newS.models| == |before|
      invariant ResolveAll(model, ranges[..k], select) == Ok(sels)
      invariant newS.models == before[modelNr := Assemble(sels)]
    {
      ghost var f := range => ResolveRange(model, range, select);
      var sel := SelectGroups(model, ranges[k], select);
      if sel.Err? {
        MapUntilErrorStopsAt(ranges, f, k);
        return Some(sel.error);
      }
      MapUntilErrorStep(ranges, f, k);
      var chainId := PlaceSelection(newS, modelNr, prevChainId, sel.value);
      prevChainId := Some(chainId);
      ghost var done := sels;
      sels := sels + [sel.value];
      assert sels[..|sels| - 1] == done;
    }
    assert ranges[..|ranges|] == ranges;
    return None;
  }

  /**
   * One model of reduce: an empty output model, filled with the input model
   * itself or with the ranges' selections, then given nearby ligands.
   */
  method ReduceOneModel(s: Structure, newS: Structure, modelNr: nat, ranges: seq<ResidueRange>, select: GroupSelector, contact: ContactTest)
    returns (err: Option<ReduceError>)
    requires s != newS && modelNr < |s.models|
    modifies newS`models
    ensures err.None? <==> ReduceModel(s.models[modelNr], ranges, select).Ok?
    ensures err.Some? ==> ReduceModel(s.models[modelNr], ranges, select) == Err(err.value)
    ensures err.None? ==>
      newS.models == old(newS.models) + [LigandPass(contact, DefaultLigandProximityCutoff, s.models[modelNr], ReduceModel(s.models[modelNr], ranges, select).value)]
  {
    newS.AddModel([]);
    var last := |newS.models| - 1;
    if ranges == [] {
      newS.SetModel(last, s.models[modelNr]);
    } else {
      err := ReduceRanges(newS, last, s.models[modelNr], ranges, select);
      if err.Some? {
        return;
      }
    }
    CopyLigandsByProximity(s, newS, DefaultLigandProximityCutoff, modelNr, last, contact);
    return None;
  }

  /**
   * reduce(s): a new structure with the input's code and assembly flag,
   * named by the identifier text, whose models are the reduced models of
   * the input, or the error that stopped it. The input is not changed.
   */
  method Reduce(id: Identifier, grammar: RangeGrammar, s: Structure, select: GroupSelector, contact: ContactTest)
    returns (r: Result<Structure, ReduceError>)
    ensures r.Err? ==> ReduceModels(s.models, id.ranges, select, contact) == Err(r.error)
    ensures r.Ok? ==>
      && fresh(r.value)
      && r.value.pdbCode == s.pdbCode
      && r.value.name == ToString(id, grammar)
      && r.value.biologicalAssembly == s.biologicalAssembly
      && ReduceModels(s.models, id.ranges, select, contact) == Ok(r.value.models)
  {
    var newS := new Structure();
    newS.pdbCode := s.pdbCode;
    newS.name := ToString(id, grammar);
    newS.biologicalAssembly := s.biologicalAssembly;

    for modelNr := 0 to |s.models|
      invariant fresh(newS)
      invariant newS.pdbCode == s.pdbCode && newS.name == ToString(id, grammar) && newS.biologicalAssembly == s.biologicalAssembly
      invariant ReduceModels(s.models[..modelNr], id.ranges, select, contact) == Ok(newS.models)
    {
      ghost var f := model => ReduceAndAddLigands(model, id.ranges, select, contact);
      var err := ReduceOneModel(s, newS, modelNr, id.ranges, select, contact);
      if err.Some? {
        MapUntilErrorStopsAt(s.models, f, modelNr);
        return Err(err.value);
      }
      MapUntilErrorStep(s.models, f, modelNr);
    }
    assert s.models[..|s.models|] == s.models;
    return Ok(newS);
  }
}
