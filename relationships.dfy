/**
 * The pairwise phase of `calculate_metabolic_relationship_from_networks.py`:
 * one result row per ordered pair of taxon records, self-pairs included,
 * row `(i, j)` written at position `i * n + j`.
 *
 * `NetCooperate.compute_single_interaction_score` is not part of this
 * model: it is passed in as an arbitrary function from a seed-group
 * collection and a compound set to a score and its support, of an
 * arbitrary value type `R`.
 */
module Relationships {
  import opened EdgeList
  import opened Taxa

  /** One row of `results.csv`, in the column order of the header. */
  datatype PairRow<R> = PairRow(
    taxaOne: string,
    taxaTwo: string,
    complementarity: R,
    competition: R,
    complementaritySupport: R,
    competitionSupport: R)

  /** `row` is the row for the ordered pair `(a, b)`: complementarity scores
      `a`'s seed groups against `b`'s non-seeds, competition scores them
      against `b`'s seeds, and the labels are the two taxon names. */
  ghost predicate IsRowFor<G, R>(row: PairRow<R>, a: TaxonRecord<G>, b: TaxonRecord<G>,
                                 score: (seq<G>, set<Compound>) -> (R, R)) {
    && row.taxaOne == a.taxaName
    && row.taxaTwo == b.taxaName
    && (row.complementarity, row.complementaritySupport) == score(a.seedGroups, b.nonSeeds)
    && (row.competition, row.competitionSupport) == score(a.seedGroups, b.seed)
  }

  /** Position of the row for `(i, j)` among `n * n` rows. */
  function RowIndex(n: nat, i: nat, j: nat): nat {
    i * n + j
  }

  /** Rows of earlier pairs come before the block of row `i`. */
  lemma {:induction false} RowIndexBelow(n: nat, a: nat, b: nat, i: nat)
    requires a < i && b < n
    ensures RowIndex(n, a, b) < i * n
    decreases i
  {
    if a + 1 < i {
      RowIndexBelow(n, a, b, i - 1);
      assert (i - 1) * n + n == i * n;
    } else {
      assert (a + 1) * n == a * n + n;
    }
  }

  /** Distinct pairs have distinct row positions, so the `n * n` rows hold
      each ordered pair exactly once. */
  lemma RowIndexInjective(n: nat, i: nat, j: nat, i': nat, j': nat)
    requires j < n && j' < n
    requires RowIndex(n, i, j) == RowIndex(n, i', j')
    ensures i == i' && j == j'
  {
    if i < i' {
      RowIndexBelow(n, i, j, i');
    } else if i' < i {
      RowIndexBelow(n, i', j', i);
    }
  }

  /** The nested `i`/`j` loops writing `results.csv`: `n * n` rows, with the
      row for the ordered pair `(i, j)`, self-pairs included, at position
      `i * n + j`. */
  method PairwiseRows<G, R>(taxa: seq<TaxonRecord<G>>, score: (seq<G>, set<Compound>) -> (R, R))
    returns (rows: seq<PairRow<R>>)
    ensures |rows| == |taxa| * |taxa|
    ensures forall i, j :: 0 <= i < |taxa| && 0 <= j < |taxa| ==>
      RowIndex(|taxa|, i, j) < |rows| && IsRowFor(rows[RowIndex(|taxa|, i, j)], taxa[i], taxa[j], score)
  {
    var n := |taxa|;
    rows := [];
    for i := 0 to n
      invariant |rows| == i * n
      invariant forall a, b :: 0 <= a < i && 0 <= b < n ==>
        RowIndex(n, a, b) < |rows| && IsRowFor(rows[RowIndex(n, a, b)], taxa[a], taxa[b], score)
    {
      for j := 0 to n
        invariant |rows| == i * n + j
        invariant forall a, b :: (0 <= a < i && 0 <= b < n) || (a == i && 0 <= b < j) ==>
          RowIndex(n, a, b) < |rows| && IsRowFor(rows[RowIndex(n, a, b)], taxa[a], taxa[b], score)
      {
        var (complementarity, complementaritySupport) := score(taxa[i].seedGroups, taxa[j].nonSeeds);
        var (competition, competitionSupport) := score(taxa[i].seedGroups, taxa[j].seed);
        var taxaOne := taxa[i].taxaName;
        var taxaTwo := taxa[j].taxaName;
        rows := rows + [PairRow(taxaOne, taxaTwo, complementarity, competition,
                                complementaritySupport, competitionSupport)];
      }
      assert i * n + n == (i + 1) * n;
    }
  }

  /** The whole script on a directory listing: with `files` the `.tab`
      entries in listing order, the row at `i * n + j` labels and scores the
      pair of files `i` and `j`, computing the seed sets of both graphs. */
  method RelationshipScript<G, R>(listing: seq<NetworkFile>, calculateSeeds: Graph -> Seeds<G>,
                                  score: (seq<G>, set<Compound>) -> (R, R))
    returns (rows: seq<PairRow<R>>)
    ensures var files := TabFiles(listing);
      && |rows| == |files| * |files|
      && forall i, j :: 0 <= i < |files| && 0 <= j < |files| ==>
        && RowIndex(|files|, i, j) < |rows|
        && var row, a, b := rows[RowIndex(|files|, i, j)], calculateSeeds(Parse(files[i].lines)), calculateSeeds(Parse(files[j].lines));
           && row.taxaOne == TaxonName(files[i].filename)
           && row.taxaTwo == TaxonName(files[j].filename)
           && (row.complementarity, row.complementaritySupport) == score(a.seedGroups, b.nonSeeds)
           && (row.competition, row.competitionSupport) == score(a.seedGroups, b.seed)
  {
    var taxa := BuildTaxa(listing, calculateSeeds);
    rows := PairwiseRows(taxa, score);
  }
}
