/**
 * The summary phase of `calculate_seed_set.py`: one row per taxon record,
 * in record order, with the number of seed groups, the number of nodes and
 * their quotient.
 *
 * The quotient `n_seed_compounds / n_compounds` is not guarded: a record
 * whose `nodes` is empty raises `ZeroDivisionError` and the script stops,
 * the rows written before it staying in the file. The model returns those
 * rows and says whether the division failed. The quotient is kept as an
 * exact `real`, not a floating-point value.
 */
module SeedSetSummary {
  import opened EdgeList
  import opened Taxa

  /** One row of `seed_set_results.csv`, in the column order of the header. */
  datatype SummaryRow<G> = SummaryRow(
    taxaName: string,
    seedGroups: seq<G>,
    nSeedCompounds: nat,
    nodes: set<Compound>,
    nCompounds: nat,
    fractionSeedCompounds: real)

  /** `row` summarises `rec`: the counted "seed compounds" are the seed
      GROUPS, the compounds are the nodes, and the fraction is the first
      count over the second. */
  ghost predicate IsSummaryOf<G>(row: SummaryRow<G>, rec: TaxonRecord<G>) {
    && row.taxaName == rec.taxaName
    && row.seedGroups == rec.seedGroups
    && row.nSeedCompounds == |rec.seedGroups|
    && row.nodes == rec.nodes
    && row.nCompounds == |rec.nodes|
    && row.nCompounds > 0
    && row.fractionSeedCompounds * row.nCompounds as real == row.nSeedCompounds as real
  }

  /** The index loop writing `seed_set_results.csv`. Without a division by
      zero there is one row per record, in record order; otherwise the rows
      stop just before the first record without nodes. */
  method SummaryRows<G>(taxa: seq<TaxonRecord<G>>) returns (rows: seq<SummaryRow<G>>, divisionByZero: bool)
    ensures divisionByZero <==> exists k :: 0 <= k < |taxa| && taxa[k].nodes == {}
    ensures !divisionByZero ==> |rows| == |taxa|
    ensures divisionByZero ==> |rows| < |taxa| && taxa[|rows|].nodes == {}
    ensures forall k :: 0 <= k < |rows| ==> IsSummaryOf(rows[k], taxa[k])
  {
    rows := [];
    divisionByZero := false;
    var i := 0;
    while i < |taxa| && !divisionByZero
      invariant 0 <= i <= |taxa| && |rows| == i
      invariant forall k :: 0 <= k < i ==> IsSummaryOf(rows[k], taxa[k])
      invariant divisionByZero ==> i < |taxa| && taxa[i].nodes == {}
      decreases |taxa| - i, !divisionByZero
    {
      var taxaName := taxa[i].taxaName;
      var seedGroups := taxa[i].seedGroups;
      var nSeedCompounds := |seedGroups|;
      var nodes := taxa[i].nodes;
      var nCompounds := |nodes|;
      if nCompounds == 0 {
        divisionByZero := true;
      } else {
        var fractionSeedCompounds := nSeedCompounds as real / nCompounds as real;
        rows := rows + [SummaryRow(taxaName, seedGroups, nSeedCompounds, nodes, nCompounds, fractionSeedCompounds)];
        i := i + 1;
      }
    }
  }

  /** The whole script on a directory listing: the rows summarise the
      `.tab` entries in listing order, each from the seed computation on
      that file's graph, up to the first one without nodes. */
  method SeedSetScript<G>(listing: seq<NetworkFile>, calculateSeeds: Graph -> Seeds<G>)
    returns (rows: seq<SummaryRow<G>>, divisionByZero: bool)
    ensures var files := TabFiles(listing);
      && (divisionByZero <==> exists k :: 0 <= k < |files| && calculateSeeds(Parse(files[k].lines)).nodes == {})
      && |rows| <= |files|
      && (!divisionByZero ==> |rows| == |files|)
      && (divisionByZero ==> |rows| < |files| && calculateSeeds(Parse(files[|rows|].lines)).nodes == {})
      && forall k :: 0 <= k < |rows| ==>
        var result := calculateSeeds(Parse(files[k].lines));
        && rows[k].taxaName == TaxonName(files[k].filename)
        && rows[k].seedGroups == result.seedGroups
        && rows[k].nSeedCompounds == |result.seedGroups|
        && rows[k].nodes == result.nodes
        && rows[k].nCompounds == |result.nodes| > 0
        && rows[k].fractionSeedCompounds * rows[k].nCompounds as real == rows[k].nSeedCompounds as real
  {
    var taxa := BuildTaxa(listing, calculateSeeds);
    rows, divisionByZero := SummaryRows(taxa);
    ghost var files := TabFiles(listing);
    forall k | 0 <= k < |taxa|
      ensures taxa[k].nodes == calculateSeeds(Parse(files[k].lines)).nodes
      ensures taxa[k].seedGroups == calculateSeeds(Parse(files[k].lines)).seedGroups
      ensures taxa[k].taxaName == TaxonName(files[k].filename)
    {
      assert IsRecordOf(taxa[k], files[k], calculateSeeds);
    }
    forall k | 0 <= k < |rows|
      ensures rows[k].nSeedCompounds == |taxa[k].seedGroups|
      ensures rows[k].nCompounds == |taxa[k].nodes| > 0
      ensures rows[k].taxaName == taxa[k].taxaName
      ensures rows[k].seedGroups == taxa[k].seedGroups
      ensures rows[k].nodes == taxa[k].nodes
      ensures rows[k].fractionSeedCompounds * rows[k].nCompounds as real == rows[k].nSeedCompounds as real
    {
      assert IsSummaryOf(rows[k], taxa[k]);
    }
  }
}
