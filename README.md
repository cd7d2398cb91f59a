# Metabolic network drivers: a Dafny model

This project models the two driver scripts of the metabolic network
analysis: `calculate_metabolic_relationship_from_networks.py` and
`calculate_seed_set.py`. Both scripts do the same first two things.

1. **Read the networks.** For each directory entry whose name ends in
   `.tab`, `readGraph` reads the file as a tab-separated edge list. The
   result is a dict from a source compound to the ordered list of its
   successors. The two scripts define `readGraph` identically, so one shared
   model (`EdgeList`) is used for both.
2. **Build one taxon record per file.** The record holds the file's taxon
   name (the file name with `.tab` removed) and the five results of the
   seed-set computation on its graph (`Taxa`).

After that the scripts differ:

- **Relationship script** (`Relationships`): writes one row per ordered pair
  of records, self-pairs included. Row `(i, j)` sits at position `i·n + j`.
  - Its complementarity scores record `i`'s seed groups against record
    `j`'s non-seeds.
  - Its competition scores the same seed groups against record `j`'s seeds.
- **Seed-set script** (`SeedSetSummary`): writes one row per record.
  - The row holds the number of seed groups, the number of nodes, and their
    quotient.
  - The quotient is not guarded. The first record without nodes raises
    `ZeroDivisionError`, and the rows written before it are kept.

The model does not interpret the seed-set computation or the interaction
score. Each is passed in as an arbitrary total function, so every property
holds whatever the two functions do:

- `calculateSeeds: Graph -> Seeds<G>`;
- `score: (seq<G>, set<Compound>) -> (R, R)`.

The type of a seed-group entry `G` and the type of a score `R` are generic.

The Python string operations the reader depends on are modelled in
`PyStrings`:

- `str.isspace`, with the exact set of code points CPython treats as
  whitespace;
- `strip()`, as CPython's two index scans;
- `split("\t")`, keeping empty fields;
- `endswith`;
- `replace(old, "")`.

Python's dict insertion order is kept as an explicit key sequence. The dict
that `readGraph` fills in place is the class `EdgeList.AdjacencyDict`.

Three behaviours of the code are easy to misread, and the model keeps each
as written:

- **Taxon name.** `str.replace(filename, ".tab", "")` removes every `.tab`
  in the file name, not only a trailing extension
  (`Taxa.TaxonNameDropsExtension`).
- **Zero nodes.** The division `n_seed_compounds/n_compounds` is unguarded.
  A record without nodes raises `ZeroDivisionError`, and the script stops
  there (`SeedSetSummary.SummaryRows`).
- **Duplicate edges.** `readGraph` appends every accepted line, so duplicate
  edges stay in the successor lists (`EdgeList.ParseSuccessors`).

## Model

| member | source | states |
|---|---|---|
| PyStrings.IsSpace | metabolic_network_analysis/calculate_metabolic_relationship_from_networks.py:27 | `c.isspace()`: membership in the set of code points that `strip()` removes |
| PyStrings.Strip | metabolic_network_analysis/calculate_metabolic_relationship_from_networks.py:27 | `line.strip()` is a slice of the line; everything cut off before and after it is whitespace; and the slice neither starts nor ends with whitespace |
| PyStrings.StripUnique | metabolic_network_analysis/calculate_metabolic_relationship_from_networks.py:27 | that characterisation is unique: any slice that satisfies it is the strip |
| PyStrings.Split | metabolic_network_analysis/calculate_metabolic_relationship_from_networks.py:27 | `split("\t")` gives one more field than there are tabs; no field holds a tab; joining the fields with tabs gives back the text |
| PyStrings.SplitOfJoin | metabolic_network_analysis/calculate_metabolic_relationship_from_networks.py:27 | splitting tab-joined tab-free fields gives back exactly those fields |
| PyStrings.SplitFirstField | metabolic_network_analysis/calculate_metabolic_relationship_from_networks.py:29 | the first field is empty exactly when the text is empty or starts with a tab; otherwise it starts with the text's first character |
| PyStrings.EndsWith | metabolic_network_analysis/calculate_metabolic_relationship_from_networks.py:51 | `filename.endswith(".tab")`: the last characters of the name are the suffix |
| PyStrings.RemoveAll | metabolic_network_analysis/calculate_metabolic_relationship_from_networks.py:54 | `str.replace(s, pat, "")`: removes every non-overlapping occurrence, scanning from the left; the result is never longer than the text |
| PyStrings.RemoveAllAbsent | metabolic_network_analysis/calculate_metabolic_relationship_from_networks.py:54 | `replace(pat, "")` leaves text without an occurrence of `pat` unchanged |
| EdgeList.AddEdge | metabolic_network_analysis/calculate_metabolic_relationship_from_networks.py:35 | `setdefault(x, []).append(y)` appends `y` to `x`'s list only; it adds `x` at the end of the key order exactly when `x` is new; and it keeps the dict invariant |
| EdgeList.Classify | metabolic_network_analysis/calculate_metabolic_relationship_from_networks.py:27-35 | the branch the loop body takes on `vals = line.strip().split("\t")`: skip when `vals[0]` is empty or starts with `#`, bad when there are not two fields, and otherwise the edge `vals[0] -> vals[1]` |
| EdgeList.ClassifySkipped | metabolic_network_analysis/calculate_metabolic_relationship_from_networks.py:27-30 | a line is skipped silently exactly when its stripped text is empty or starts with `#`, whatever its field count |
| EdgeList.ClassifyBad | metabolic_network_analysis/calculate_metabolic_relationship_from_networks.py:27-33 | a line is reported as bad exactly when its stripped text is not empty, does not start with `#`, and does not hold exactly one tab |
| EdgeList.ClassifyEdge | metabolic_network_analysis/calculate_metabolic_relationship_from_networks.py:27-35 | a line yields edge `x -> y` exactly when its stripped text is `x`, a tab, `y`, with both fields tab-free and `x` neither empty nor starting with `#` |
| EdgeList.EdgeEndpoints | metabolic_network_analysis/calculate_metabolic_relationship_from_networks.py:27-35 | every accepted source is non-empty, tab-free, and starts with neither whitespace nor `#`; every accepted target is non-empty, tab-free, and does not end in whitespace |
| EdgeList.Build | metabolic_network_analysis/calculate_metabolic_relationship_from_networks.py:24-36 | the dict built line by line always keeps the dict invariant: distinct keys, keys equal to the map's domain, and no empty list |
| EdgeList.BadLines | metabolic_network_analysis/calculate_metabolic_relationship_from_networks.py:31-32 | the lines printed after "Bad line: ", in file order, as read |
| EdgeList.LineEffect | metabolic_network_analysis/calculate_metabolic_relationship_from_networks.py:29-35 | one more line leaves the graph unchanged unless it is accepted; an accepted line `x\ty` appends `y` to `x`'s list only, and adds `x` to the key order only when `x` is new |
| EdgeList.ParseSuccessors | metabolic_network_analysis/calculate_metabolic_relationship_from_networks.py:24-37 | each key's list is the targets of the accepted edges from that key, in file order, duplicates kept |
| EdgeList.ParseKeys | metabolic_network_analysis/calculate_metabolic_relationship_from_networks.py:24-37 | the dict's key order is the sources of the accepted edges, in order of first appearance |
| EdgeList.ParseEdgeCount | metabolic_network_analysis/calculate_metabolic_relationship_from_networks.py:24-37 | the total length of all lists equals the number of accepted lines |
| EdgeList.ParseWellFormed | metabolic_network_analysis/calculate_metabolic_relationship_from_networks.py:24-37 | every key and every successor in the returned graph is well formed, as in `EdgeEndpoints` |
| EdgeList.PrefixStep | metabolic_network_analysis/calculate_metabolic_relationship_from_networks.py:25-35 | reading one more line changes the graph and the bad-line report exactly as that line's kind says |
| EdgeList.AdjacencyDict.constructor | metabolic_network_analysis/calculate_metabolic_relationship_from_networks.py:24 | a new dict is empty |
| EdgeList.AdjacencyDict.SetDefaultAppend | metabolic_network_analysis/calculate_metabolic_relationship_from_networks.py:35 | the in-place `setdefault(x, []).append(y)` leaves the dict holding `AddEdge` of its old contents |
| EdgeList.ReadLine | metabolic_network_analysis/calculate_metabolic_relationship_from_networks.py:27-35 | the loop body applies the line's kind to the dict in place, and reports the line exactly when it is bad |
| EdgeList.ReadGraph | metabolic_network_analysis/calculate_metabolic_relationship_from_networks.py:23-37 | `readGraph` returns `Parse(lines)` and reports exactly the bad lines, in file order; `calculate_seed_set.py:17-31` is the same function |
| Taxa.TaxonName | metabolic_network_analysis/calculate_metabolic_relationship_from_networks.py:54 | `str.replace(filename, ".tab", "")`, the `taxa_name` of a record |
| Taxa.TaxonNameDropsExtension | metabolic_network_analysis/calculate_metabolic_relationship_from_networks.py:54 | the name of a `.tab`-free stem, then `.tab`, then any rest, is the stem followed by the name of the rest, so every `.tab` goes, wherever it appears |
| Taxa.TaxonNameOfStem | metabolic_network_analysis/calculate_metabolic_relationship_from_networks.py:54 | the taxon name of `stem.tab` is `stem` when `stem` holds no `.tab` (the general lemma with an empty rest) |
| Taxa.TaxonNameRemovesInnerExtension | metabolic_network_analysis/calculate_metabolic_relationship_from_networks.py:54 | an instance of the general lemma: the name of `x.tab.tab` is `x` |
| Taxa.TabFiles | metabolic_network_analysis/calculate_metabolic_relationship_from_networks.py:48-51 | the entries processed are exactly those whose name ends in `.tab`, no more of them than the listing has |
| Taxa.TabFilesPrefix | metabolic_network_analysis/calculate_metabolic_relationship_from_networks.py:48-51 | one more directory entry adds itself to the processed entries exactly when its name ends in `.tab` |
| Taxa.ReadTaxon | metabolic_network_analysis/calculate_metabolic_relationship_from_networks.py:52-59 | the record for one file holds its taxon name and the five seed-set results of its parsed graph, unmodified |
| Taxa.BuildTaxa | metabolic_network_analysis/calculate_metabolic_relationship_from_networks.py:45-60 | exactly one record per `.tab` entry, in listing order; `calculate_seed_set.py:43-58` is the same loop |
| Relationships.RowIndexInjective | metabolic_network_analysis/calculate_metabolic_relationship_from_networks.py:68-70 | distinct ordered pairs have distinct row positions |
| Relationships.PairwiseRows | metabolic_network_analysis/calculate_metabolic_relationship_from_networks.py:68-80 | `n·n` rows; the row at `i·n + j` names taxa `i` and `j`; it scores `i`'s seed groups against `j`'s non-seeds (complementarity) and against `j`'s seeds (competition); self-pairs are included |
| Relationships.RelationshipScript | metabolic_network_analysis/calculate_metabolic_relationship_from_networks.py:45-80 | end to end: the rows relate the `.tab` files pairwise, through the seed sets of their parsed graphs |
| SeedSetSummary.SummaryRows | metabolic_network_analysis/calculate_seed_set.py:66-78 | one row per record, in record order; the seed-compound count is the number of seed groups and the compound count is the number of nodes; the fraction times the compound count is the seed-compound count; a division by zero happens exactly when some record has no nodes, and the rows then stop just before the first such record |
| SeedSetSummary.SeedSetScript | metabolic_network_analysis/calculate_seed_set.py:43-78 | end to end: the rows summarise the `.tab` files in listing order, from the seed sets of their parsed graphs, up to the first one without nodes; each row carries the seed groups and the nodes of its file's seed sets |

## Left out

- Argument parsing, `os.fsencode`/`os.fsdecode`, `os.path.join` and `open`
  are I/O; a directory entry is given as its decoded name and its lines.
- The order of `os.listdir` is arbitrary; the model takes the listing as given.
- The `print` calls are left out. "Bad line: " is returned as the list of bad
  lines instead. The for-else "Seed set calculated for N taxa" message
  carries no state beyond `|taxa|`.
- Writing the CSV files (`csv.DictWriter`, header, `f.close`) is I/O;
  rows are returned as sequences in write order.
- `SeedSet.calculate_seeds` and `NetCooperate.compute_single_interaction_score`
  are not part of this model; they are parameters of the model.
- Seed groups are treated as a sequence of entries of an unknown type, since
  only `len` is applied to them; `seed`, `non_seeds`, `pruned` and `nodes`
  are treated as sets of compounds.
- SeedSetSummary.SummaryRows: the fraction is an exact rational number, not
  a rounded IEEE double.
- Lines are already split: how `open` divides a file into lines, and
  decoding errors, are left out. The line terminator a line keeps is
  whitespace and `strip` removes it.
- The unused `sys`, `csv` (second import), `pandas` and `numpy` imports
  have no behaviour to model.
