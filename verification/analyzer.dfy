/**
 * The block preference table of one votation (`get_blocks_data`): the raw
 * votation rows are grouped by block, the vote values of each block are
 * counted, the five standard categories are always present (0 when nobody in
 * the block used them), a per-block total is added, and the block's preference
 * is 1 exactly when its affirmatives strictly outnumber its negatives.
 */
module Analyzer {
  import opened Records

  /** One row of a raw votation file, reduced to its `BLOQUE` and `¿CÓMO VOTÓ?` columns. */
  datatype CsvRow = CsvRow(bloque: string, comoVoto: string)

  /** The five vote categories every block row carries, in the order the table adds them. */
  const Categories: seq<string> := [AFIRMATIVO, NEGATIVO, ABSTENCION, SIN_VOTAR, AUSENTE]

  /**
   * One row of the block table. The five categories are renamed columns;
   * `others` holds a column for each further vote value that occurs anywhere in
   * the votation (for example the presiding officer's), 0-filled like the rest.
   */
  datatype BlockRow = BlockRow(
    affirmatives: nat,
    negatives: nat,
    abstentions: nat,
    notVoted: nat,
    absents: nat,
    others: map<string, nat>,
    count: nat,
    preference: nat)

  /** The blocks that occur in the votation. */
  function Blocks(rows: seq<CsvRow>): set<string> {
    set r | r in rows :: r.bloque
  }

  /** Number of rows of block `b` that voted `v`. */
  function Count(rows: seq<CsvRow>, b: string, v: string): nat {
    if rows == [] then 0
    else (if rows[0] == CsvRow(b, v) then 1 else 0) + Count(rows[1..], b, v)
  }

  /** Number of rows of block `b`, whatever their vote. */
  function BlockSize(rows: seq<CsvRow>, b: string): nat {
    if rows == [] then 0
    else (if rows[0].bloque == b then 1 else 0) + BlockSize(rows[1..], b)
  }

  /** Sum, over the columns `cols`, of block `b`'s count in each column. */
  function SumCounts(rows: seq<CsvRow>, b: string, cols: seq<string>): nat {
    if cols == [] then 0 else Count(rows, b, cols[0]) + SumCounts(rows, b, cols[1..])
  }

  /**
   * The vote values outside the five categories, each once, in order of first
   * appearance: the extra columns that counting every vote value produces.
   */
  function OtherValues(rows: seq<CsvRow>): (vs: seq<string>)
    ensures NoDup(vs)
    ensures forall v :: v in vs <==> v !in Categories && exists r :: r in rows && r.comoVoto == v
  {
    if rows == [] then []
    else
      var init := rows[..|rows| - 1];
      var last := rows[|rows| - 1];
      assert rows == init + [last];
      var rest := OtherValues(init);
      if last.comoVoto in Categories || last.comoVoto in rest then rest else rest + [last.comoVoto]
  }

  /** Block `b`'s row, given the extra vote-value columns of the votation. */
  function MakeRow(rows: seq<CsvRow>, b: string, others: seq<string>): BlockRow {
    var aff := Count(rows, b, AFIRMATIVO);
    var neg := Count(rows, b, NEGATIVO);
    BlockRow(
      aff, neg,
      Count(rows, b, ABSTENCION), Count(rows, b, SIN_VOTAR), Count(rows, b, AUSENTE),
      map v | v in others :: Count(rows, b, v),
      SumCounts(rows, b, Categories + others),
      if aff > neg then 1 else 0)
  }

  /** The block table of one votation, keyed by block. */
  function GetBlocksData(rows: seq<CsvRow>): (table: map<string, BlockRow>)
    ensures table.Keys == Blocks(rows)
  {
    var others := OtherValues(rows);
    map b | b in Blocks(rows) :: MakeRow(rows, b, others)
  }

  // ---------------------------------------------------------------------------
  // Counting lemmas

  /** A row's count in a column is the multiplicity of that (block, vote) pair. */
  lemma {:induction false} CountIsMultiplicity(rows: seq<CsvRow>, b: string, v: string)
    ensures Count(rows, b, v) == multiset(rows)[CsvRow(b, v)]
  {
    if rows != [] {
      CountIsMultiplicity(rows[1..], b, v);
      assert rows == [rows[0]] + rows[1..];
    }
  }

  /** How many columns of `cols` the single row `x` falls into for block `b`. */
  function Hits(x: CsvRow, b: string, cols: seq<string>): nat {
    if cols == [] then 0 else (if x == CsvRow(b, cols[0]) then 1 else 0) + Hits(x, b, cols[1..])
  }

  lemma {:induction false} HitsOnce(x: CsvRow, b: string, cols: seq<string>)
    requires NoDup(cols)
    ensures Hits(x, b, cols) == if x.bloque == b && x.comoVoto in cols then 1 else 0
  {
    if cols != [] {
      HitsOnce(x, b, cols[1..]);
      assert x.comoVoto == cols[0] ==> x.comoVoto !in cols[1..];
    }
  }

  lemma {:induction false} SumCountsSplit(rows: seq<CsvRow>, b: string, cols: seq<string>)
    requires rows != []
    ensures SumCounts(rows, b, cols) == Hits(rows[0], b, cols) + SumCounts(rows[1..], b, cols)
  {
    if cols != [] {
      SumCountsSplit(rows, b, cols[1..]);
    }
  }

  /** Summing the counts over columns that cover every vote value once gives the block's size. */
  lemma {:induction false} SumCountsIsBlockSize(rows: seq<CsvRow>, b: string, cols: seq<string>)
    requires NoDup(cols)
    requires forall r :: r in rows ==> r.comoVoto in cols
    ensures SumCounts(rows, b, cols) == BlockSize(rows, b)
  {
    if rows == [] {
      SumCountsEmpty(b, cols);
    } else {
      SumCountsSplit(rows, b, cols);
      HitsOnce(rows[0], b, cols);
      SumCountsIsBlockSize(rows[1..], b, cols);
    }
  }

  lemma {:induction false} SumCountsEmpty(b: string, cols: seq<string>)
    ensures SumCounts([], b, cols) == 0
  {
    if cols != [] {
      SumCountsEmpty(b, cols[1..]);
    }
  }

  lemma {:induction false} BlockSizePositive(rows: seq<CsvRow>, b: string)
    requires b in Blocks(rows)
    ensures BlockSize(rows, b) > 0
  {
    if rows[0].bloque != b {
      var r :| r in rows && r.bloque == b;
      assert r in rows[1..];
      BlockSizePositive(rows[1..], b);
    }
  }

  lemma ColumnsCoverVotes(rows: seq<CsvRow>)
    ensures NoDup(Categories + OtherValues(rows))
    ensures forall r :: r in rows ==> r.comoVoto in Categories + OtherValues(rows)
  {
    var cs := Categories + OtherValues(rows);
    forall i, j | 0 <= i < j < |cs| ensures cs[i] != cs[j] {
      if j >= |Categories| && i < |Categories| {
        assert cs[j] in OtherValues(rows);
      }
    }
  }

  // ---------------------------------------------------------------------------
  // Properties of the block table

  /**
   * Each block's `count` is the number of rows of that block, since the sum
   * runs over every vote-value column once; so every block row has count > 0.
   */
  lemma CountIsBlockSize(rows: seq<CsvRow>, b: string)
    requires b in Blocks(rows)
    ensures b in GetBlocksData(rows)
    ensures GetBlocksData(rows)[b].count == BlockSize(rows, b) > 0
  {
    ColumnsCoverVotes(rows);
    SumCountsIsBlockSize(rows, b, Categories + OtherValues(rows));
    BlockSizePositive(rows, b);
  }

  lemma {:induction false} NoOtherValues(rows: seq<CsvRow>)
    requires forall r :: r in rows ==> r.comoVoto in Categories
    ensures OtherValues(rows) == []
  {
    if rows != [] {
      var init := rows[..|rows| - 1];
      assert forall r :: r in init ==> r in rows;
      NoOtherValues(init);
      assert rows[|rows| - 1] in rows;
    }
  }

  lemma SumOverCategories(rows: seq<CsvRow>, b: string)
    ensures SumCounts(rows, b, Categories) == Count(rows, b, AFIRMATIVO) + Count(rows, b, NEGATIVO)
      + Count(rows, b, ABSTENCION) + Count(rows, b, SIN_VOTAR) + Count(rows, b, AUSENTE)
  {
    var s1 := [AUSENTE];
    var s2 := [SIN_VOTAR] + s1;
    var s3 := [ABSTENCION] + s2;
    var s4 := [NEGATIVO] + s3;
    assert Categories == [AFIRMATIVO] + s4;
    assert s1[1..] == [];
    assert SumCounts(rows, b, s1) == Count(rows, b, AUSENTE);
    assert s2[1..] == s1;
    assert SumCounts(rows, b, s2) == Count(rows, b, SIN_VOTAR) + SumCounts(rows, b, s1);
    assert s3[1..] == s2;
    assert SumCounts(rows, b, s3) == Count(rows, b, ABSTENCION) + SumCounts(rows, b, s2);
    assert s4[1..] == s3;
    assert SumCounts(rows, b, s4) == Count(rows, b, NEGATIVO) + SumCounts(rows, b, s3);
    assert Categories[1..] == s4;
  }

  /** When every vote is one of the five categories, they add up to the block's count and there are no other columns. */
  lemma CategoriesSumToCount(rows: seq<CsvRow>, b: string)
    requires b in Blocks(rows)
    requires forall r :: r in rows ==> r.comoVoto in Categories
    ensures var row := GetBlocksData(rows)[b];
      && row.others == map[]
      && row.affirmatives + row.negatives + row.abstentions + row.notVoted + row.absents == row.count
  {
    NoOtherValues(rows);
    assert Categories + [] == Categories;
    SumOverCategories(rows, b);
  }

  /** The preference is 1 exactly when affirmatives strictly exceed negatives, so any tie (0/0 included) gives 0. */
  lemma PreferenceIsStrictMajority(rows: seq<CsvRow>, b: string)
    requires b in Blocks(rows)
    ensures var row := GetBlocksData(rows)[b];
      && (row.preference == 1 <==> row.affirmatives > row.negatives)
      && (row.preference == 0 <==> row.affirmatives <= row.negatives)
  {
  }

  /** The vote values that occur in the votation. */
  function VoteValues(rows: seq<CsvRow>): set<string> {
    set r | r in rows :: r.comoVoto
  }

  /**
   * A block row written from the multiset of (block, vote) pairs alone: the
   * category counts and extra columns are multiplicities, the preference is the
   * strict-majority rule.
   */
  function RowOf(m: multiset<CsvRow>, b: string, values: set<string>, size: nat): BlockRow {
    var aff := m[CsvRow(b, AFIRMATIVO)];
    var neg := m[CsvRow(b, NEGATIVO)];
    BlockRow(
      aff, neg,
      m[CsvRow(b, ABSTENCION)], m[CsvRow(b, SIN_VOTAR)], m[CsvRow(b, AUSENTE)],
      map v | v in values && v !in Categories :: m[CsvRow(b, v)],
      size,
      if aff > neg then 1 else 0)
  }

  /** Every block row is the multiplicity-based row of its block, with the block's size as count. */
  lemma RowFromMultiset(rows: seq<CsvRow>, b: string)
    requires b in Blocks(rows)
    ensures b in GetBlocksData(rows)
    ensures GetBlocksData(rows)[b] == RowOf(multiset(rows), b, VoteValues(rows), BlockSize(rows, b))
  {
    var row := GetBlocksData(rows)[b];
    var others := OtherValues(rows);
    assert row == MakeRow(rows, b, others);
    CountIsBlockSize(rows, b);
    CountIsMultiplicity(rows, b, AFIRMATIVO);
    CountIsMultiplicity(rows, b, NEGATIVO);
    CountIsMultiplicity(rows, b, ABSTENCION);
    CountIsMultiplicity(rows, b, SIN_VOTAR);
    CountIsMultiplicity(rows, b, AUSENTE);
    var m := multiset(rows);
    var want := map v | v in VoteValues(rows) && v !in Categories :: m[CsvRow(b, v)];
    forall v | v in others ensures v in want && row.others[v] == want[v] {
      CountIsMultiplicity(rows, b, v);
    }
    assert row.others == want;
  }

  /** The five category columns hold the number of block members who voted that way; 0 iff nobody did. */
  lemma CategoryCounts(rows: seq<CsvRow>, b: string)
    requires b in Blocks(rows)
    ensures var row := GetBlocksData(rows)[b];
      && row.affirmatives == multiset(rows)[CsvRow(b, AFIRMATIVO)]
      && row.negatives == multiset(rows)[CsvRow(b, NEGATIVO)]
      && row.abstentions == multiset(rows)[CsvRow(b, ABSTENCION)]
      && row.notVoted == multiset(rows)[CsvRow(b, SIN_VOTAR)]
      && row.absents == multiset(rows)[CsvRow(b, AUSENTE)]
    ensures GetBlocksData(rows)[b].affirmatives == 0 <==> CsvRow(b, AFIRMATIVO) !in rows
    ensures GetBlocksData(rows)[b].negatives == 0 <==> CsvRow(b, NEGATIVO) !in rows
    ensures GetBlocksData(rows)[b].abstentions == 0 <==> CsvRow(b, ABSTENCION) !in rows
    ensures GetBlocksData(rows)[b].notVoted == 0 <==> CsvRow(b, SIN_VOTAR) !in rows
    ensures GetBlocksData(rows)[b].absents == 0 <==> CsvRow(b, AUSENTE) !in rows
  {
    RowFromMultiset(rows, b);
  }

  /**
   * Every vote value other than the five categories gets its own column in
   * every block row, holding that block's count of it.
   */
  lemma OtherColumns(rows: seq<CsvRow>, b: string)
    requires b in Blocks(rows)
    ensures forall v :: v in GetBlocksData(rows)[b].others <==> v !in Categories && v in VoteValues(rows)
    ensures forall v | v in GetBlocksData(rows)[b].others :: GetBlocksData(rows)[b].others[v] == multiset(rows)[CsvRow(b, v)]
  {
    RowFromMultiset(rows, b);
  }

  lemma SameElements(rows: seq<CsvRow>, rows': seq<CsvRow>)
    requires multiset(rows) == multiset(rows')
    ensures Blocks(rows) == Blocks(rows')
    ensures VoteValues(rows) == VoteValues(rows')
  {
    forall r ensures r in rows <==> r in rows' {
      assert r in rows <==> r in multiset(rows);
      assert r in rows' <==> r in multiset(rows');
    }
  }

  /** Reordering the rows of a votation does not change its block table. */
  lemma OrderIrrelevant(rows: seq<CsvRow>, rows': seq<CsvRow>)
    requires multiset(rows) == multiset(rows')
    ensures GetBlocksData(rows) == GetBlocksData(rows')
  {
    SameElements(rows, rows');
    forall b | b in Blocks(rows) ensures GetBlocksData(rows)[b] == GetBlocksData(rows')[b] {
      RowFromMultiset(rows, b);
      RowFromMultiset(rows', b);
      BlockSizeByMultiset(rows, rows', b);
    }
  }

  /** The size of a block depends only on the multiset of rows. */
  lemma BlockSizeByMultiset(rows: seq<CsvRow>, rows': seq<CsvRow>, b: string)
    requires multiset(rows) == multiset(rows')
    ensures BlockSize(rows, b) == BlockSize(rows', b)
  {
    ColumnsCoverVotes(rows);
    var cols := Categories + OtherValues(rows);
    forall r | r in rows' ensures r.comoVoto in cols {
      assert r in multiset(rows');
      assert r in rows;
    }
    SumCountsIsBlockSize(rows, b, cols);
    SumCountsIsBlockSize(rows', b, cols);
    SumCountsByMultiset(rows, rows', b, cols);
  }

  lemma {:induction false} SumCountsByMultiset(rows: seq<CsvRow>, rows': seq<CsvRow>, b: string, cols: seq<string>)
    requires multiset(rows) == multiset(rows')
    ensures SumCounts(rows, b, cols) == SumCounts(rows', b, cols)
  {
    if cols != [] {
      CountIsMultiplicity(rows, b, cols[0]);
      CountIsMultiplicity(rows', b, cols[0]);
      SumCountsByMultiset(rows, rows', b, cols[1..]);
    }
  }
}
