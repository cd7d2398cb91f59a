/**
 * The per-file phase that both driver scripts share: for every directory
 * entry whose name ends in `.tab`, read the network, run the seed-set
 * computation on it and keep one taxon record, in listing order.
 *
 * `SeedSet.calculate_seeds` is not part of this model: it is passed in as
 * an arbitrary function from a graph to its five results, so nothing here
 * depends on how seeds are computed. The structure of one seed group is
 * equally unknown; `seed_groups` is modelled as the sequence of its
 * entries, of an arbitrary type `G`.
 */
module Taxa {
  import opened PyStrings
  import opened EdgeList

  /** One directory entry: its decoded file name and, for reading, its lines. */
  datatype NetworkFile = NetworkFile(filename: string, lines: seq<string>)

  /** The five results `seed, seed_groups, non_seeds, pruned, nodes` of
      `SeedSet.calculate_seeds(graph)`. */
  datatype Seeds<G> = Seeds(
    seed: set<Compound>,
    seedGroups: seq<G>,
    nonSeeds: set<Compound>,
    pruned: set<Compound>,
    nodes: set<Compound>)

  /** The dict `seed_taxa` kept for one network file. */
  datatype TaxonRecord<G> = TaxonRecord(
    taxaName: string,
    seed: set<Compound>,
    seedGroups: seq<G>,
    nonSeeds: set<Compound>,
    pruned: set<Compound>,
    nodes: set<Compound>)

  const TabExtension: string := ".tab"

  /** `str.replace(filename, ".tab", "")`. */
  function TaxonName(filename: string): string {
    RemoveAll(filename, TabExtension)
  }

  /** No occurrence of `.tab` starts at the front of `stem.tab` followed by
      `rest` when `stem` is not empty and holds no `.tab`: one lying wholly in
      the stem is excluded, and one straddling the end of the stem would need
      a later character of `.tab` to be `.`. So `replace` keeps the first character. */
  lemma ExtensionNotAtFront(stem: string, rest: string)
    requires stem != [] && !Occurs(stem, TabExtension)
    ensures var s := stem + TabExtension + rest;
      RemoveAll(s, TabExtension) == [s[0]] + RemoveAll(s[1..], TabExtension)
  {
    var s := stem + TabExtension + rest;
    assert |s| >= 4;
    if |stem| >= 4 {
      assert s[..4] == stem[..4];
    } else {
      assert s[|stem|] == '.';
      assert TabExtension[|stem|] != '.';
    }
    assert s[..4] != TabExtension;
  }

  /** `replace` keeps a `.tab`-free prefix and drops the `.tab` after it,
      then goes on with the rest: the name of `stem.tab` followed by `rest`
      is `stem` followed by the name of `rest`. */
  lemma {:induction false} TaxonNameDropsExtension(stem: string, rest: string)
    requires !Occurs(stem, TabExtension)
    ensures TaxonName(stem + TabExtension + rest) == stem + TaxonName(rest)
    decreases |stem|
  {
    var s := stem + TabExtension + rest;
    if stem == [] {
      assert s == TabExtension + rest;
      assert s[..|TabExtension|] == TabExtension && s[|TabExtension|..] == rest;
    } else {
      ExtensionNotAtFront(stem, rest);
      assert s[1..] == stem[1..] + TabExtension + rest;
      assert !Occurs(stem[1..], TabExtension);
      TaxonNameDropsExtension(stem[1..], rest);
      assert [stem[0]] + (stem[1..] + TaxonName(rest)) == stem + TaxonName(rest);
    }
  }

  /** The name of `stem.tab` is `stem`, provided `stem` itself holds no `.tab`. */
  lemma TaxonNameOfStem(stem: string)
    requires !Occurs(stem, TabExtension)
    ensures TaxonName(stem + TabExtension) == stem
  {
    TaxonNameDropsExtension(stem, []);
    assert stem + TabExtension + [] == stem + TabExtension;
    assert TaxonName([]) == [];
  }

  /** So an inner `.tab` goes as well: the name of `x.tab.tab` is `x`. */
  lemma TaxonNameRemovesInnerExtension()
    ensures TaxonName("x.tab.tab") == "x"
  {
    var t := TabExtension;
    assert TaxonName([]) == [];
    TaxonNameDropsExtension([], []);
    assert [] + t + [] == t;
    assert TaxonName(t) == [];
    TaxonNameDropsExtension("x", t);
    assert "x" + t + t == "x.tab.tab";
  }

  /** The entries whose name ends with `.tab`, in listing order. */
  function TabFiles(listing: seq<NetworkFile>): (r: seq<NetworkFile>)
    ensures |r| <= |listing|
    ensures forall f :: f in r <==> f in listing && EndsWith(f.filename, TabExtension)
    decreases |listing|
  {
    if listing == [] then []
    else
      var front := TabFiles(listing[..|listing| - 1]);
      var f := listing[|listing| - 1];
      assert listing == listing[..|listing| - 1] + [f];
      if EndsWith(f.filename, TabExtension) then front + [f] else front
  }

  /** The `.tab` entries of a prefix one entry longer. */
  lemma TabFilesPrefix(listing: seq<NetworkFile>, i: nat)
    requires i < |listing|
    ensures TabFiles(listing[..i + 1]) ==
      if EndsWith(listing[i].filename, TabExtension) then TabFiles(listing[..i]) + [listing[i]]
      else TabFiles(listing[..i])
  {
    assert listing[..i + 1][..i] == listing[..i];
  }

  /** `rec` is the record kept for `file`: its name, and the five results
      of the seed computation on its graph, unmodified. */
  ghost predicate IsRecordOf<G>(rec: TaxonRecord<G>, file: NetworkFile, calculateSeeds: Graph -> Seeds<G>) {
    var result := calculateSeeds(Parse(file.lines));
    && rec.taxaName == TaxonName(file.filename)
    && rec.seed == result.seed
    && rec.seedGroups == result.seedGroups
    && rec.nonSeeds == result.nonSeeds
    && rec.pruned == result.pruned
    && rec.nodes == result.nodes
  }

  /** The body of the loop for one `.tab` entry: read its graph, compute
      its seeds and build the record `seed_taxa`. */
  method ReadTaxon<G>(file: NetworkFile, calculateSeeds: Graph -> Seeds<G>) returns (seedTaxa: TaxonRecord<G>)
    ensures IsRecordOf(seedTaxa, file, calculateSeeds)
  {
    var graph, _ := ReadGraph(file.lines);
    var result := calculateSeeds(graph);
    seedTaxa := TaxonRecord(TaxonName(file.filename), result.seed, result.seedGroups,
                            result.nonSeeds, result.pruned, result.nodes);
  }

  /** Appending a record for `file` to records of `files` keeps them paired. */
  lemma RecordsAppend<G>(taxa: seq<TaxonRecord<G>>, files: seq<NetworkFile>, rec: TaxonRecord<G>, file: NetworkFile,
                         calculateSeeds: Graph -> Seeds<G>)
    requires |taxa| == |files|
    requires forall k :: 0 <= k < |taxa| ==> IsRecordOf(taxa[k], files[k], calculateSeeds)
    requires IsRecordOf(rec, file, calculateSeeds)
    ensures forall k :: 0 <= k < |taxa| + 1 ==> IsRecordOf((taxa + [rec])[k], (files + [file])[k], calculateSeeds)
  {
  }

  /** The loop that fills `seed_list_all_taxa`: exactly one record per
      `.tab` entry, in listing order, and none for any other entry. */
  method BuildTaxa<G>(listing: seq<NetworkFile>, calculateSeeds: Graph -> Seeds<G>)
    returns (taxa: seq<TaxonRecord<G>>)
    ensures |taxa| == |TabFiles(listing)|
    ensures forall k :: 0 <= k < |taxa| ==> IsRecordOf(taxa[k], TabFiles(listing)[k], calculateSeeds)
  {
    taxa := [];
    ghost var files: seq<NetworkFile> := [];
    for i := 0 to |listing|
      invariant files == TabFiles(listing[..i])
      invariant |taxa| == |files|
      invariant forall k :: 0 <= k < |taxa| ==> IsRecordOf(taxa[k], files[k], calculateSeeds)
    {
      var file := listing[i];
      TabFilesPrefix(listing, i);
      if EndsWith(file.filename, TabExtension) {
        var seedTaxa := ReadTaxon(file, calculateSeeds);
        RecordsAppend(taxa, files, seedTaxa, file, calculateSeeds);
        taxa := taxa + [seedTaxa];
        files := files + [file];
      }
    }
    assert listing[..|listing|] == listing;
  }
}
