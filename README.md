# SubstructureIdentifier, modelled in Dafny

BioJava's `SubstructureIdentifier` names part of a macromolecular structure. It is an
entry code such as `4HHB`, optionally followed by a dot and a list of residue ranges
(`3iek.A_17-28,A_56-294`). This project models four parts of it:

- the two constructors;
- the canonical text (`getIdentifier`, `toString`, `toCanonical`);
- `reduce`, which builds a new structure holding only the selected chains and residues;
- `copyLigandsByProximity`, which puts back the ligands of the full structure that touch
  the selection.

Modules, one per file:

| file | module | contents |
|---|---|---|
| `wrappers.dfy` | `Wrappers` | `Option`, `Result`, and `MapUntilError`, a fold for a loop that stops at the first exception |
| `text.dfy` | `JavaText` | the parts of `String` and `Integer` the code relies on: `split("\\.")` with Java's dropping of trailing empty pieces, `trim`, ASCII `toUpperCase`, `Integer.parseInt` with its 32-bit range |
| `ranges.dfy` | `Ranges` | residue numbers, residue ranges, the range grammar as a pair of functions |
| `identifier.dfy` | `Identifiers` | the identifier as a value, its constructors and its text |
| `structure.dfy` | `Structures` | groups and chains as values; the lookups `getPolyChainByPDB`, `findChain`, `findGroup`; `Structure`, a class whose `models` field the code extends in place |
| `ligands.dfy` | `Ligands` | the ligand pass, as a fold over (chain, group) visits and as the in-place loops |
| `reduce.dfy` | `Reduction` | range resolution, placement of selections into output chains, and the in-place `reduce` |

Code the model uses but does not contain is passed in as function-typed parameters:

- `ResidueRange.parseMultiple` / `ResidueRange.toString(List)`;
- `Chain.getGroupsByPDB`;
- the grid contact test.

The pure parts are functions with lemmas. `reduce` and `copyLigandsByProximity` are
methods that change a `Structure` through its `modifies` frame. Each method's
postcondition states the new state as a specification function of the old state:
`Assemble`, `LigandPass`, `ReduceModels`. The lemmas state what those functions
guarantee.

## Model

All source paths are under `biojava-structure/src/main/java/org/biojava/nbio/structure/`; the table gives them in full.

| member | source | states |
|---|---|---|
| JavaText.JavaSplit | biojava-structure/src/main/java/org/biojava/nbio/structure/SubstructureIdentifier.java:90 | Splitting on a dot: no piece contains a dot, and a dot-free text is its own only piece. Otherwise the pieces are a prefix of the plain split that ends in a non-empty piece, and every piece of the plain split past that prefix is empty: the plain split with its trailing empty pieces removed |
| JavaText.JavaSplitLength | biojava-structure/src/main/java/org/biojava/nbio/structure/SubstructureIdentifier.java:90-91 | The piece count read off the text: 0 for a non-empty run of dots, else one more than the dots left after stripping trailing dots |
| JavaText.SplitThenJoin | biojava-structure/src/main/java/org/biojava/nbio/structure/SubstructureIdentifier.java:90 | The plain split loses nothing: joining its pieces with the separator gives back the text |
| JavaText.ToUpper | biojava-structure/src/main/java/org/biojava/nbio/structure/SubstructureIdentifier.java:99 | Same length; no lower-case letter left; each character is kept or is the upper case of a lower-case letter; text without lower-case letters is unchanged |
| JavaText.Trim | biojava-structure/src/main/java/org/biojava/nbio/structure/SubstructureIdentifier.java:103 | The result is the slice of the text that starts after its leading blanks (≤ U+0020). Only blanks follow the slice, and the result has a non-blank character at each end; text without blank ends is unchanged |
| JavaText.TrimUnique | biojava-structure/src/main/java/org/biojava/nbio/structure/SubstructureIdentifier.java:103 | Any slice of the text with non-blank ends and only blanks around it is the trim, so the contract of `Trim` fixes its value |
| JavaText.TrimExample | biojava-structure/src/main/java/org/biojava/nbio/structure/SubstructureIdentifier.java:103 | Trimming `" A_1-5, B \t"` removes the space in front and the space and tab at the end, and keeps the inner space |
| JavaText.ParseInt | biojava-structure/src/main/java/org/biojava/nbio/structure/SubstructureIdentifier.java:239 | Accepts exactly the texts that are an optional sign followed by at least one digit and whose value is in the 32-bit range. The value is the digits read in base ten, negated after a minus sign |
| JavaText.ParseIntForms | biojava-structure/src/main/java/org/biojava/nbio/structure/SubstructureIdentifier.java:239 | `02` and `+2` read as 2 and `-1` as -1; a lone `-` and the empty text are refused |
| JavaText.ParseIntOverflow | biojava-structure/src/main/java/org/biojava/nbio/structure/SubstructureIdentifier.java:239 | The decimal text of 2147483648 is refused as out of range |
| JavaText.ParseIntOfDecimal | biojava-structure/src/main/java/org/biojava/nbio/structure/SubstructureIdentifier.java:239 | Every non-negative 32-bit value's decimal text parses back to that value |
| Identifiers.NormalizeCode | biojava-structure/src/main/java/org/biojava/nbio/structure/SubstructureIdentifier.java:94-100 | A four-character code becomes its upper case, so it has no lower-case letter left; a code of any other length is stored unchanged |
| Identifiers.NormalizeCodeIdempotent | biojava-structure/src/main/java/org/biojava/nbio/structure/SubstructureIdentifier.java:94-100 | Normalising a stored code again changes nothing |
| Identifiers.FromText | biojava-structure/src/main/java/org/biojava/nbio/structure/SubstructureIdentifier.java:89-109 | Malformed exactly when the split gives neither 1 nor 2 pieces. Otherwise the code is the normalised first piece and contains no dot. One piece gives no ranges. With two pieces, the ranges come from parsing the trimmed second piece, and a grammar failure is reported with that text |
| Identifiers.MalformedExactly | biojava-structure/src/main/java/org/biojava/nbio/structure/SubstructureIdentifier.java:90-92 | The text constructor rejects exactly the texts that are a non-empty run of dots, or that have at least two dots before their trailing dots |
| Identifiers.TwoDotsMalformed | biojava-structure/src/main/java/org/biojava/nbio/structure/SubstructureIdentifier.java:90-92 | `3iek.A.B` is rejected as malformed |
| Identifiers.OnlyDotsMalformed | biojava-structure/src/main/java/org/biojava/nbio/structure/SubstructureIdentifier.java:90-92 | `.` is rejected as malformed (it splits into no pieces) |
| Identifiers.TrailingDotDropped | biojava-structure/src/main/java/org/biojava/nbio/structure/SubstructureIdentifier.java:90-108 | `1abc.` is accepted as the whole structure `1ABC`: the trailing empty piece is dropped and the four-character code is upper-cased |
| Identifiers.FromParts | biojava-structure/src/main/java/org/biojava/nbio/structure/SubstructureIdentifier.java:118-124 | Fails exactly for a null range list; otherwise stores the code and the ranges exactly as given, an empty list included |
| Identifiers.ExplicitConstructorKeepsCase | biojava-structure/src/main/java/org/biojava/nbio/structure/SubstructureIdentifier.java:118-124 | The explicit constructor keeps `1tim` in lower case, where the text constructor gives `1TIM` |
| Identifiers.GetIdentifier | biojava-structure/src/main/java/org/biojava/nbio/structure/SubstructureIdentifier.java:141-144 | The text starts with the code. With no ranges it is the code alone; otherwise a dot and the rendered ranges follow the code |
| Identifiers.ToString | biojava-structure/src/main/java/org/biojava/nbio/structure/SubstructureIdentifier.java:126-129 | `toString` is the identifier text |
| Identifiers.ToCanonical | biojava-structure/src/main/java/org/biojava/nbio/structure/SubstructureIdentifier.java:157-160 | The canonical form is the identifier itself |
| Identifiers.IdentifierRoundTrip | biojava-structure/src/main/java/org/biojava/nbio/structure/SubstructureIdentifier.java:131-144 | The canonical text rebuilds the identifier through the text constructor when three things hold: the code has no dot, a four-character code is upper case, and the grammar reads its rendering back |
| Identifiers.TextRoundTrip | biojava-structure/src/main/java/org/biojava/nbio/structure/SubstructureIdentifier.java:89-144 | Text to identifier to text gives the input with its code normalised and its range text trimmed, when the grammar renders what it parsed as the same text |
| Ranges.WithChain | biojava-structure/src/main/java/org/biojava/nbio/structure/SubstructureIdentifier.java:222-225 | Stamping a chain name on a bound keeps an absent bound absent and a present bound at the same position, now carrying the name |
| Structures.ChainByName | biojava-structure/src/main/java/org/biojava/nbio/structure/SubstructureIdentifier.java:234 | The lookup by chain name returns the first chain with that name, and nothing when no chain has it or the name is null |
| Structures.ChainById | biojava-structure/src/main/java/org/biojava/nbio/structure/SubstructureIdentifier.java:366 | The lookup by chain id returns the first chain with that id, and nothing when there is none |
| Structures.HasGroup | biojava-structure/src/main/java/org/biojava/nbio/structure/SubstructureIdentifier.java:357 | Definition of the `findGroup` presence test: the chain found by id holds a group at the same sequence number and insertion code. `HasGroupPersists` proves that it stays true while the model only grows |
| Structures.AllAtoms | biojava-structure/src/main/java/org/biojava/nbio/structure/SubstructureIdentifier.java:327 | Definition of `getAllAtomArray` for one model: the atoms of every group, chain by chain, group by group. It is the grid over which `LigandPass` tests contact |
| Structures.ChainByIdPersists | biojava-structure/src/main/java/org/biojava/nbio/structure/SubstructureIdentifier.java:363-382 | A chain found by id is found at the same place after the model only grew |
| Structures.HasGroupPersists | biojava-structure/src/main/java/org/biojava/nbio/structure/SubstructureIdentifier.java:355-361 | A group the presence check sees is still seen after the model only grew |
| Structures.Structure.constructor | biojava-structure/src/main/java/org/biojava/nbio/structure/SubstructureIdentifier.java:179 | A new structure has no models |
| Structures.Structure.AddModel | biojava-structure/src/main/java/org/biojava/nbio/structure/SubstructureIdentifier.java:201 | Appends one model; the others are unchanged |
| Structures.Structure.SetModel | biojava-structure/src/main/java/org/biojava/nbio/structure/SubstructureIdentifier.java:209 | Replaces one model; the others are unchanged |
| Structures.Structure.AddChain | biojava-structure/src/main/java/org/biojava/nbio/structure/SubstructureIdentifier.java:280 | Appends a chain to one model; nothing else changes |
| Structures.Structure.AddGroup | biojava-structure/src/main/java/org/biojava/nbio/structure/SubstructureIdentifier.java:382 | Appends a group to one chain of one model; nothing else changes |
| Ligands.ModelVisitsCover | biojava-structure/src/main/java/org/biojava/nbio/structure/SubstructureIdentifier.java:331-335 | The scan visits every group of every chain of the full model |
| Ligands.IsLigandCandidate | biojava-structure/src/main/java/org/biojava/nbio/structure/SubstructureIdentifier.java:337-346 | Definition: a group is a candidate unless it is a water or has a chemical component marked standard. A group without a component is a candidate |
| Ligands.Admits | biojava-structure/src/main/java/org/biojava/nbio/structure/SubstructureIdentifier.java:337-361 | Definition of the four tests a group passes before it is copied: it is a candidate, it touches the grid, and the target has no group at its position. `ScanAddsOnlyAdmitted` and `LigandPassAddsOnlyNearbyLigands` prove that every added group passed them |
| Ligands.Step | biojava-structure/src/main/java/org/biojava/nbio/structure/SubstructureIdentifier.java:337-382 | Definition of one visit: attach the group when it is admitted, otherwise leave the target unchanged. `StepExtends` proves that a step only appends |
| Ligands.Scan | biojava-structure/src/main/java/org/biojava/nbio/structure/SubstructureIdentifier.java:337-382 | Definition of the visits in order, each against the target as the earlier visits left it. `ScanExtends`, `ScanAddsOnlyAdmitted`, `ScanKeepsNearbyLigands` and `ScanKeepsPositionsDistinct` prove its properties |
| Ligands.LigandPass | biojava-structure/src/main/java/org/biojava/nbio/structure/SubstructureIdentifier.java:324-386 | Definition of the ligand pass over one pair of models: the scan of every (chain, group) of the full model, with the grid fixed from the reduced model before the scan. `CopyLigandsByProximity` is proved to compute it; `LigandPassAddsOnlyNearbyLigands`, `LigandPassKeepsNearbyLigands`, `LigandPassKeepsPositionsDistinct` and `LigandPassOnItselfAddsNothing` prove what it guarantees |
| Ligands.Attach | biojava-structure/src/main/java/org/biojava/nbio/structure/SubstructureIdentifier.java:363-382 | A ligand ends up last in the chain with its source chain's id. If no chain has that id, a new chain is appended with that id and the source chain's SEQRES data. No other chain changes and nothing is removed |
| Ligands.ScanExtends | biojava-structure/src/main/java/org/biojava/nbio/structure/SubstructureIdentifier.java:331-386 | The scan only appends groups and chains; it removes, reorders or alters nothing |
| Ligands.ScanAddsOnlyAdmitted | biojava-structure/src/main/java/org/biojava/nbio/structure/SubstructureIdentifier.java:337-382 | Every group the scan adds meets four conditions. It is neither water nor a standard residue. It touches the fixed grid. Its position was absent before the scan. It comes from a visited chain whose id is that of the chain it lands in |
| Ligands.ScanKeepsNearbyLigands | biojava-structure/src/main/java/org/biojava/nbio/structure/SubstructureIdentifier.java:337-382 | After the scan, the target holds every visited ligand that touches the grid and names its own chain, whether it was added or already there |
| Ligands.ScanKeepsPositionsDistinct | biojava-structure/src/main/java/org/biojava/nbio/structure/SubstructureIdentifier.java:355-361 | The presence check keeps positions within a chain distinct, provided each visited group names its own chain |
| Ligands.LigandPassAddsOnlyNearbyLigands | biojava-structure/src/main/java/org/biojava/nbio/structure/SubstructureIdentifier.java:324-386 | The pass only appends. Each added group meets four conditions. It is neither water nor a standard residue. It touches the reduced model's atoms as they were before the pass. Its position was absent there. It belongs to a full-model chain whose id is that of the chain it lands in |
| Ligands.LigandPassKeepsNearbyLigands | biojava-structure/src/main/java/org/biojava/nbio/structure/SubstructureIdentifier.java:324-386 | Conversely, after the pass the reduced model holds every ligand of the full model that touches the reduced model and names its own chain |
| Ligands.LigandPassKeepsPositionsDistinct | biojava-structure/src/main/java/org/biojava/nbio/structure/SubstructureIdentifier.java:355-361 | The pass adds no second group at a position, provided the full model's groups name their own chains |
| Ligands.LigandPassOnItselfAddsNothing | biojava-structure/src/main/java/org/biojava/nbio/structure/SubstructureIdentifier.java:324-386 | On a well-formed model (distinct chain ids, groups naming their own chain), the pass against the model itself changes nothing |
| Ligands.CopyLigandsByProximity | biojava-structure/src/main/java/org/biojava/nbio/structure/SubstructureIdentifier.java:324-386 | In place: the target model becomes the ligand pass of the source model over it. The grid is the target's atoms before the pass. Every other model is unchanged |
| Ligands.CopyChainLigands | biojava-structure/src/main/java/org/biojava/nbio/structure/SubstructureIdentifier.java:331-384 | In place: the target model becomes the scan of one source chain's groups over it |
| Ligands.AttachLigand | biojava-structure/src/main/java/org/biojava/nbio/structure/SubstructureIdentifier.java:363-382 | In place: the target model gets the ligand as `Attach` says. The cached chain index is then the chain found by the source chain's id |
| Ligands.CopyLigandsByProximityAllModels | biojava-structure/src/main/java/org/biojava/nbio/structure/SubstructureIdentifier.java:317-323 | Every model of the reduced structure becomes the pass, with the default cutoff, of the same-numbered model of the full structure |
| Reduction.ResolveChain | biojava-structure/src/main/java/org/biojava/nbio/structure/SubstructureIdentifier.java:219-246 | `_` is chain 0, or an error on a model with no chains. Otherwise the first chain with that name. Otherwise the token read as an index, which must lie inside the model. A token that is neither a name nor an integer is an unrecognised chain |
| Reduction.NameBeforeIndex | biojava-structure/src/main/java/org/biojava/nbio/structure/SubstructureIdentifier.java:233-246 | Worked cases: a name beats an index, an index is used when no name matches, and an index past the chains or a non-number fails |
| Reduction.Bounds | biojava-structure/src/main/java/org/biojava/nbio/structure/SubstructureIdentifier.java:219-225 | Under `_` each present bound carries the chosen chain's name. Otherwise the bounds are used as given. Positions and absent bounds are always kept |
| Reduction.ResolveRange | biojava-structure/src/main/java/org/biojava/nbio/structure/SubstructureIdentifier.java:214-264 | A range takes the resolved chain. With both bounds open it takes all the chain's groups; otherwise it takes the groups between the bounds. A chain error or a failed bound lookup is reported |
| Reduction.SelectGroups | biojava-structure/src/main/java/org/biojava/nbio/structure/SubstructureIdentifier.java:214-264 | The in-place branch structure of reduce yields exactly the selection `ResolveRange` specifies |
| Reduction.ResolveAll | biojava-structure/src/main/java/org/biojava/nbio/structure/SubstructureIdentifier.java:212-264 | Definition: every range resolved in order, stopping at the first that fails. `ReduceModelSpec` states when it succeeds and which error it gives |
| Reduction.OutputChain | biojava-structure/src/main/java/org/biojava/nbio/structure/SubstructureIdentifier.java:266-273 | The lookup through the previous chain id always returns the same chain as the plain lookup by the chain's name |
| Reduction.NewChainFor | biojava-structure/src/main/java/org/biojava/nbio/structure/SubstructureIdentifier.java:275-288 | Definition of the chain made for a selection whose name is not yet in the output: the selected chain's id, name and SEQRES data, holding the selection's groups |
| Reduction.Place | biojava-structure/src/main/java/org/biojava/nbio/structure/SubstructureIdentifier.java:266-288 | Definition of placing a selection: its groups go at the end of the output chain of the same name, or into a new chain after the others. `PlaceSelection` is proved to compute it |
| Reduction.Assemble | biojava-structure/src/main/java/org/biojava/nbio/structure/SubstructureIdentifier.java:212-291 | Definition of the output model before the ligand pass: the selections placed in range order. `AssembleOrder`, `AssembleGathers` and `AssembleKeepsUnnamed` prove its shape and contents |
| Reduction.FirstMentions | biojava-structure/src/main/java/org/biojava/nbio/structure/SubstructureIdentifier.java:266-290 | The names in order of first mention: each selected name appears, and no name twice |
| Reduction.FirstMentionsFromSelections | biojava-structure/src/main/java/org/biojava/nbio/structure/SubstructureIdentifier.java:266-290 | Every listed name is the name of some selected chain |
| Reduction.AssembleOrder | biojava-structure/src/main/java/org/biojava/nbio/structure/SubstructureIdentifier.java:250-290 | Output chains come in order of first mention: one per chain name, plus one for each selection of an unnamed chain |
| Reduction.AssembleGathers | biojava-structure/src/main/java/org/biojava/nbio/structure/SubstructureIdentifier.java:250-290 | A named chain is in the output exactly when some range selected it. It then holds the groups of every range on that name, in range order and without deduplication. Its id, name and SEQRES data are those of the chain first selected |
| Reduction.AssembleKeepsUnnamed | biojava-structure/src/main/java/org/biojava/nbio/structure/SubstructureIdentifier.java:266-288 | Every selection of a chain without a name has its own output chain: the chain's id and SEQRES data holding exactly that selection's groups |
| Reduction.AddGroups | biojava-structure/src/main/java/org/biojava/nbio/structure/SubstructureIdentifier.java:285-288 | In place: the groups are appended in order to one output chain; nothing else changes |
| Reduction.PlaceSelection | biojava-structure/src/main/java/org/biojava/nbio/structure/SubstructureIdentifier.java:266-290 | In place: the output model becomes the selection placed into the chain of that name, or into a new chain |
| Reduction.ReduceRanges | biojava-structure/src/main/java/org/biojava/nbio/structure/SubstructureIdentifier.java:210-292 | In place: the empty output model becomes the placed selections of all ranges. Otherwise the error of the first failing range is returned |
| Reduction.ReduceModel | biojava-structure/src/main/java/org/biojava/nbio/structure/SubstructureIdentifier.java:203-292 | Definition of one model of the output before the ligand pass: the model itself when there are no ranges, otherwise `Assemble` of `ResolveAll`. `ReduceModelSpec` states its cases |
| Reduction.ReduceModelSpec | biojava-structure/src/main/java/org/biojava/nbio/structure/SubstructureIdentifier.java:203-292 | With no ranges a model is kept as it is. With ranges it succeeds exactly when every range resolves, and then it is their selections assembled in order. Otherwise it fails with the first failing range's error |
| Reduction.ReduceAndAddLigands | biojava-structure/src/main/java/org/biojava/nbio/structure/SubstructureIdentifier.java:196-295 | Definition of one reduced model widened by the ligand pass against its input model, or that model's error |
| Reduction.ReduceModels | biojava-structure/src/main/java/org/biojava/nbio/structure/SubstructureIdentifier.java:196-295 | Definition of every model reduced and widened in order, stopping at the first model that fails. `Reduce` is proved to compute it, and `ReduceModelsSpec` and `ReduceWithoutRanges` state what it gives |
| Reduction.ReduceModelsSpec | biojava-structure/src/main/java/org/biojava/nbio/structure/SubstructureIdentifier.java:196-295 | Reduction succeeds exactly when every model reduces. It then gives one output model per input model, in order, each widened by the ligand pass against its own input model. Otherwise the first failing model decides the error |
| Reduction.ReduceWithoutRanges | biojava-structure/src/main/java/org/biojava/nbio/structure/SubstructureIdentifier.java:203-209 | With no ranges and well-formed models, the reduced structure's models are the input's models |
| Reduction.ReduceOneModel | biojava-structure/src/main/java/org/biojava/nbio/structure/SubstructureIdentifier.java:196-295 | In place: one output model is appended, the reduced model widened by the ligand pass, or the model's error is returned |
| Reduction.Reduce | biojava-structure/src/main/java/org/biojava/nbio/structure/SubstructureIdentifier.java:175-298 | A new structure carrying the input's code and assembly flag, named by the identifier text, whose models are `ReduceModels` of the input's. Otherwise the error `ReduceModels` reports. The input is left unchanged |

## Left out

- `loadStructure` is I/O through `AtomCache`, which is not part of this model.
- The grid: its construction, `hasAnyContact` and `Calc.atomsToPoints` are floating-point geometry. Contact is an abstract test of (cutoff, grid atoms, group atoms), and the 7.0 cutoff is carried as a value only.
- Code in other files is passed in as parameters, with a simplified contract:
  - `ResidueRange.parseMultiple` and `ResidueRange.toString(List)`;
  - `Chain.getGroupsByPDB`.
- A group's chemical component is a field of the group (`chemComp`, possibly absent) rather than the result of `getChemComp()`. Only its standard-residue flag is read.
- Three lookups are restated rather than modelled from their code:
  - `getPolyChainByPDB`: the first chain with the name; its restriction to polymer chains is not modelled;
  - `findChain`: the first chain with the id;
  - `findGroup`: same sequence number and insertion code in that chain.
- `getChainByIndex` is not part of this model. An index outside the model's chains, which the source leaves to that method, becomes the error `ChainIndexOutOfRange` rather than a precondition, so `Reduce` needs none.
- Logging, the header description string (which `reduce` writes into the header object it shares with the input), and the copying of header, entity info, SS bonds, sites and DB references are left out. They are field copies or observability only; `Structure` keeps only the code, name, assembly flag and models.
- Reduction.Reduce: with no ranges, the output model in the source is the input's own chain list, and later ligand additions would show in the input too. The model copies values. It therefore does not capture this aliasing, or the concurrent modification it could cause on models that are not well formed.
- The bounds stamped with the chain name under `_` persist on the identifier's range objects in the source. The model stamps a copy.
- Identifiers.FromParts: the code is a string and cannot be null. The explicit constructor stores a null code as given, and `loadStructure` then returns null; the model does not represent an identifier without a code.
- Identifiers.GetIdentifier: for the same reason, the null code is not rendered. The source returns null when there are no ranges, and the text `null.` followed by the ranges otherwise.
- Groups' parent-chain pointers, which `addGroup` resets, are not modelled.
- JavaText.ToUpper: maps only ASCII letters, not Unicode case mapping. It also ignores the default locale that `toUpperCase()` uses: under a Turkish locale `1tim` becomes `1TİM`, where the model gives `1TIM`.
- Identifiers.NormalizeCode: measures length in characters, where Java's `length()` counts UTF-16 code units. A code with a supplementary character has a different length in the two, so it can be upper-cased in one and not the other.
- JavaText.ParseInt: accepts only ASCII digits, not other Unicode digits.
- No idempotence is claimed for the ligand pass. A second pass uses a grid that includes the ligands just added, so more groups may qualify.
- `Serializable` and `serialVersionUID` are not modelled.
