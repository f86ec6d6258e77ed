/**
 * The cross-votation analysis (`analyze_votations`): for every stored votation
 * id the votation's vote rows are read, the presiding officer's row is
 * dropped, the rest are classified by the per-votation classifier, the
 * classified votations are concatenated, each record gets a `vote_count` of 1
 * for an up/down vote, and the records are grouped by (block, deputy) into
 * means and sums.
 */
module Aggregation {
  import opened Records

  type Bit = x: int | 0 <= x <= 1

  /** The 0/1 columns the per-votation classifier supplies for one record. */
  datatype Flags = Flags(
    loyalty: Bit,
    supportedOfficialism: Bit,
    accerted: Bit,
    absent: Bit,
    notVoted: Bit,
    abstention: Bit)

  /** A vote record together with its classifier columns. */
  datatype ClassifiedVote = ClassifiedVote(record: DeputyVote, flags: Flags)

  /**
   * The per-votation classifier: given the rows of one votation (presiding
   * officer already removed) and one of those rows, that row's flags. Its
   * rules are not part of this model; it is a parameter of the analysis.
   */
  type Classifier = (seq<DeputyVote>, DeputyVote) -> Flags

  /** The grouping key of the final table: (block, deputy), exactly as recorded. */
  type GroupKey = (string, string)

  function Key(r: DeputyVote): GroupKey {
    (r.block, r.deputy)
  }

  /** One row of the final table. The two means are exact rationals. */
  datatype DeputyStats = DeputyStats(
    averageLoyalty: real,
    totalVotes: nat,
    totalParticipation: nat,
    officialismSupport: real,
    accerted: nat,
    absent: nat,
    notVoted: nat,
    abstention: nat)

  /** Concatenating an empty list of votation results raises. */
  datatype AnalysisError = NoObjectsToConcatenate

  /** The stored rows of votation `id`, in table order. */
  function VotationRows(table: seq<DeputyVote>, id: string): seq<DeputyVote> {
    if table == [] then []
    else (if table[0].voteId == id then [table[0]] else []) + VotationRows(table[1..], id)
  }

  /** The rows whose vote is not the presiding officer's. */
  function WithoutPresident(rows: seq<DeputyVote>): seq<DeputyVote> {
    if rows == [] then []
    else (if rows[0].vote != PRESIDENTE then [rows[0]] else []) + WithoutPresident(rows[1..])
  }

  /** One classified record per row, in the same order. */
  function Classify(rows: seq<DeputyVote>, classify: Classifier): (cs: seq<ClassifiedVote>)
    ensures |cs| == |rows|
    ensures forall i :: 0 <= i < |rows| ==> cs[i].record == rows[i]
  {
    seq(|rows|, i requires 0 <= i < |rows| => ClassifiedVote(rows[i], classify(rows, rows[i])))
  }

  /** The classified result of votation `id`. */
  function ClassifiedVotation(table: seq<DeputyVote>, id: string, classify: Classifier): seq<ClassifiedVote> {
    Classify(WithoutPresident(VotationRows(table, id)), classify)
  }

  /** The concatenation of the classified votations, in id order. */
  function Merged(ids: seq<string>, table: seq<DeputyVote>, classify: Classifier): seq<ClassifiedVote> {
    if ids == [] then []
    else Merged(ids[..|ids| - 1], table, classify) + ClassifiedVotation(table, ids[|ids| - 1], classify)
  }

  function Concat<T>(parts: seq<seq<T>>): seq<T> {
    if parts == [] then [] else Concat(parts[..|parts| - 1]) + parts[|parts| - 1]
  }

  /** The `vote_count` column: 1 for an up/down vote, 0 for anything else. */
  function VoteCount(vote: string): Bit {
    if vote == AFIRMATIVO || vote == NEGATIVO then 1 else 0
  }

  /** The columns that the grouping sums or averages. */
  datatype Column = Loyalty | SupportedOfficialism | Accerted | Absent | NotVoted | Abstention | UpDownVote

  function Value(c: ClassifiedVote, col: Column): Bit {
    match col
    case Loyalty => c.flags.loyalty
    case SupportedOfficialism => c.flags.supportedOfficialism
    case Accerted => c.flags.accerted
    case Absent => c.flags.absent
    case NotVoted => c.flags.notVoted
    case Abstention => c.flags.abstention
    case UpDownVote => VoteCount(c.record.vote)
  }

  /** The sum of a column over some records. */
  function Sum(g: seq<ClassifiedVote>, col: Column): nat {
    if g == [] then 0 else Value(g[0], col) + Sum(g[1..], col)
  }

  /** The mean of a column over a non-empty group. */
  function Mean(g: seq<ClassifiedVote>, col: Column): real
    requires g != []
  {
    Sum(g, col) as real / |g| as real
  }

  /** The records of group `k`, in merged order. */
  function Group(merged: seq<ClassifiedVote>, k: GroupKey): seq<ClassifiedVote> {
    if merged == [] then []
    else (if Key(merged[0].record) == k then [merged[0]] else []) + Group(merged[1..], k)
  }

  /** The (block, deputy) pairs that occur among the records. */
  function Keys(merged: seq<ClassifiedVote>): set<GroupKey> {
    set c | c in merged :: Key(c.record)
  }

  /** The statistics of one non-empty group. */
  function StatsOf(g: seq<ClassifiedVote>): DeputyStats
    requires g != []
  {
    DeputyStats(
      Mean(g, Loyalty),
      Sum(g, UpDownVote),
      |g|,
      Mean(g, SupportedOfficialism),
      Sum(g, Accerted),
      Sum(g, Absent),
      Sum(g, NotVoted),
      Sum(g, Abstention))
  }

  /** The final table: one row per (block, deputy) pair of the merged records. */
  function Aggregate(merged: seq<ClassifiedVote>): (table: map<GroupKey, DeputyStats>)
    ensures table.Keys == Keys(merged)
    ensures forall k | k in table :: table[k].totalParticipation == |Group(merged, k)| > 0
  {
    GroupsNonEmpty(merged);
    map k | k in Keys(merged) :: StatsOf(Group(merged, k))
  }

  /**
   * The analysis of all stored votations: fails when there is no votation id
   * (nothing to concatenate), and otherwise is the grouped table of the merged
   * classified votations.
   */
  method AnalyzeVotations(ids: seq<string>, table: seq<DeputyVote>, classify: Classifier)
    returns (r: Result<map<GroupKey, DeputyStats>, AnalysisError>)
    ensures r.Failure? <==> ids == []
    ensures r.Success? ==> r.value == Aggregate(Merged(ids, table, classify))
  {
    var results: seq<seq<ClassifiedVote>> := [];
    var i := 0;
    while i < |ids|
      invariant 0 <= i <= |ids|
      invariant |results| == i
      invariant Concat(results) == Merged(ids[..i], table, classify)
    {
      var votation := VotationRows(table, ids[i]);
      votation := WithoutPresident(votation);
      var result := Classify(votation, classify);
      assert result == ClassifiedVotation(table, ids[i], classify);
      ghost var prefix := ids[..i + 1];
      assert prefix[..i] == ids[..i] && prefix[i] == ids[i];
      assert Merged(prefix, table, classify) == Merged(ids[..i], table, classify) + result;
      ghost var done := results;
      results := results + [result];
      assert results[..i] == done && results[i] == result;
      assert Concat(results) == Concat(done) + result;
      i := i + 1;
    }
    assert ids[..i] == ids;
    if |results| == 0 {
      return Failure(NoObjectsToConcatenate);
    }
    var merged := Concat(results);
    r := Success(Aggregate(merged));
  }

  // ---------------------------------------------------------------------------
  // Lemmas

  lemma {:induction false} GroupsNonEmpty(merged: seq<ClassifiedVote>)
    ensures forall k | k in Keys(merged) :: Group(merged, k) != []
  {
    if merged != [] {
      GroupsNonEmpty(merged[1..]);
      forall k | k in Keys(merged) ensures Group(merged, k) != [] {
        if Key(merged[0].record) != k {
          var c :| c in merged && Key(c.record) == k;
          assert c in merged[1..];
        }
      }
    }
  }

  lemma {:induction false} VotationRowsMembers(table: seq<DeputyVote>, id: string)
    ensures forall r :: r in VotationRows(table, id) <==> r in table && r.voteId == id
  {
    if table != [] {
      VotationRowsMembers(table[1..], id);
      assert table == [table[0]] + table[1..];
    }
  }

  lemma {:induction false} WithoutPresidentMembers(rows: seq<DeputyVote>)
    ensures forall r :: r in WithoutPresident(rows) <==> r in rows && r.vote != PRESIDENTE
  {
    if rows != [] {
      WithoutPresidentMembers(rows[1..]);
      assert rows == [rows[0]] + rows[1..];
    }
  }

  /** The records of the classified votations. */
  function RecordSet(merged: seq<ClassifiedVote>): set<DeputyVote> {
    set c | c in merged :: c.record
  }

  /** The stored rows of the votations in `ids` whose vote is not the presiding officer's. */
  function KeptRows(ids: seq<string>, table: seq<DeputyVote>): set<DeputyVote> {
    set r | r in table && r.voteId in ids && r.vote != PRESIDENTE
  }

  lemma KeptRowsSnoc(init: seq<string>, id: string, table: seq<DeputyVote>)
    ensures KeptRows(init + [id], table) == KeptRows(init, table) + KeptRows([id], table)
  {
    forall r: DeputyVote | r in table ensures r.voteId in init + [id] <==> r.voteId in init || r.voteId in [id] { }
  }

  lemma RecordSetConcat(a: seq<ClassifiedVote>, b: seq<ClassifiedVote>)
    ensures RecordSet(a + b) == RecordSet(a) + RecordSet(b)
  {
    forall c | c in a + b ensures c in a || c in b {}
  }

  lemma ClassifiedVotationRecords(table: seq<DeputyVote>, id: string, classify: Classifier)
    ensures RecordSet(ClassifiedVotation(table, id, classify)) == KeptRows([id], table)
  {
    var rows := VotationRows(table, id);
    VotationRowsMembers(table, id);
    WithoutPresidentMembers(rows);
    var kept := WithoutPresident(rows);
    var cv := Classify(kept, classify);
    forall r | r in kept ensures r in RecordSet(cv) {
      var i :| 0 <= i < |kept| && kept[i] == r;
      assert cv[i] in cv;
    }
    forall r ensures r in KeptRows([id], table) <==> r in kept {
      assert r.voteId in [id] <==> r.voteId == id;
    }
  }

  /**
   * The merged records are exactly the stored rows of the listed votations
   * whose vote is not the presiding officer's: no such row is lost.
   */
  lemma {:induction false} MergedRecords(ids: seq<string>, table: seq<DeputyVote>, classify: Classifier)
    ensures RecordSet(Merged(ids, table, classify)) == KeptRows(ids, table)
  {
    if ids != [] {
      var init, id := ids[..|ids| - 1], ids[|ids| - 1];
      MergedRecords(init, table, classify);
      ClassifiedVotationRecords(table, id, classify);
      RecordSetConcat(Merged(init, table, classify), ClassifiedVotation(table, id, classify));
      assert ids == init + [id];
      KeptRowsSnoc(init, id, table);
    }
  }

  /** No presiding-officer row reaches the classifier or the grouping. */
  lemma PresidentNeverAggregated(ids: seq<string>, table: seq<DeputyVote>, classify: Classifier)
    ensures forall c | c in Merged(ids, table, classify) :: c.record.vote != PRESIDENTE && c.record in table
    ensures forall id, r | r in WithoutPresident(VotationRows(table, id)) :: r.vote != PRESIDENTE
  {
    MergedRecords(ids, table, classify);
    forall c | c in Merged(ids, table, classify) ensures c.record in KeptRows(ids, table) {
      assert c.record in RecordSet(Merged(ids, table, classify));
    }
    forall id: string {
      WithoutPresidentMembers(VotationRows(table, id));
    }
  }

  /**
   * The final table has one row per (block, deputy) pair of the kept rows: a
   * deputy recorded under two block names gets two rows.
   */
  lemma OneRowPerPair(ids: seq<string>, table: seq<DeputyVote>, classify: Classifier)
    ensures Aggregate(Merged(ids, table, classify)).Keys == set r | r in KeptRows(ids, table) :: Key(r)
  {
    MergedRecords(ids, table, classify);
    var merged := Merged(ids, table, classify);
    forall k | k in Keys(merged) ensures exists r :: r in KeptRows(ids, table) && Key(r) == k {
      var c :| c in merged && Key(c.record) == k;
      assert c.record in RecordSet(merged);
    }
    forall r | r in KeptRows(ids, table) ensures Key(r) in Keys(merged) {
      assert r in RecordSet(merged);
      var c :| c in merged && c.record == r;
    }
  }

  /** Sums of 0/1 columns never exceed the number of records summed. */
  lemma {:induction false} SumAtMostSize(g: seq<ClassifiedVote>, col: Column)
    ensures Sum(g, col) <= |g|
  {
    if g != [] {
      SumAtMostSize(g[1..], col);
    }
  }

  /** A column sums to 0 iff it is 0 on every record, and to the group size iff it is 1 on every record. */
  lemma {:induction false} SumExtremes(g: seq<ClassifiedVote>, col: Column)
    ensures Sum(g, col) == 0 <==> forall c | c in g :: Value(c, col) == 0
    ensures Sum(g, col) == |g| <==> forall c | c in g :: Value(c, col) == 1
  {
    if g != [] {
      SumExtremes(g[1..], col);
      SumAtMostSize(g[1..], col);
      assert g == [g[0]] + g[1..];
    }
  }

  lemma AggregateAt(merged: seq<ClassifiedVote>, k: GroupKey)
    requires k in Keys(merged)
    ensures k in Aggregate(merged) && Group(merged, k) != []
    ensures Aggregate(merged)[k] == StatsOf(Group(merged, k))
  {
    GroupsNonEmpty(merged);
  }

  /**
   * For every (block, deputy): up/down votes never exceed participation, and
   * neither does any summed column.
   */
  lemma VotesAtMostParticipation(merged: seq<ClassifiedVote>, k: GroupKey)
    requires k in Keys(merged)
    ensures var s := Aggregate(merged)[k];
      && s.totalVotes <= s.totalParticipation
      && s.accerted <= s.totalParticipation
      && s.absent <= s.totalParticipation
      && s.notVoted <= s.totalParticipation
      && s.abstention <= s.totalParticipation
  {
    AggregateAt(merged, k);
    var g := Group(merged, k);
    SumAtMostSize(g, UpDownVote);
    SumAtMostSize(g, Accerted);
    SumAtMostSize(g, Absent);
    SumAtMostSize(g, NotVoted);
    SumAtMostSize(g, Abstention);
  }

  /**
   * `total_votes` counts the group's AFIRMATIVO and NEGATIVO records: it is 0
   * exactly when the group has none, and equals the participation exactly when
   * every record of the group is one of them.
   */
  lemma TotalVotesCountsUpDown(merged: seq<ClassifiedVote>, k: GroupKey)
    requires k in Keys(merged)
    ensures var s := Aggregate(merged)[k];
      && (s.totalVotes == 0 <==>
            forall c | c in Group(merged, k) :: c.record.vote != AFIRMATIVO && c.record.vote != NEGATIVO)
      && (s.totalVotes == s.totalParticipation <==>
            forall c | c in Group(merged, k) :: c.record.vote == AFIRMATIVO || c.record.vote == NEGATIVO)
  {
    AggregateAt(merged, k);
    SumExtremes(Group(merged, k), UpDownVote);
  }

  lemma RatioBounds(s: real, n: real)
    requires 0.0 <= s <= n && n > 0.0
    ensures 0.0 <= s / n <= 1.0
    ensures s / n == 0.0 <==> s == 0.0
    ensures s / n == 1.0 <==> s == n
  {
  }

  lemma MeanBounds(g: seq<ClassifiedVote>, col: Column)
    requires g != []
    ensures 0.0 <= Mean(g, col) <= 1.0
    ensures Mean(g, col) == 0.0 <==> forall c | c in g :: Value(c, col) == 0
    ensures Mean(g, col) == 1.0 <==> forall c | c in g :: Value(c, col) == 1
  {
    SumAtMostSize(g, col);
    SumExtremes(g, col);
    RatioBounds(Sum(g, col) as real, |g| as real);
  }

  /**
   * Both means lie in [0, 1]; the average loyalty is 0 exactly when no record
   * of the group is loyal and 1 exactly when every record is.
   */
  lemma MeansInUnitInterval(merged: seq<ClassifiedVote>, k: GroupKey)
    requires k in Keys(merged)
    ensures var s := Aggregate(merged)[k];
      && 0.0 <= s.averageLoyalty <= 1.0
      && 0.0 <= s.officialismSupport <= 1.0
      && (s.averageLoyalty == 0.0 <==> forall c | c in Group(merged, k) :: c.flags.loyalty == 0)
      && (s.averageLoyalty == 1.0 <==> forall c | c in Group(merged, k) :: c.flags.loyalty == 1)
  {
    AggregateAt(merged, k);
    MeanBounds(Group(merged, k), Loyalty);
    MeanBounds(Group(merged, k), SupportedOfficialism);
  }

  /** The stored rows of the votations in `ids` that belong to group `k`, presiding officer excluded. */
  function Tally(table: seq<DeputyVote>, ids: set<string>, k: GroupKey): nat {
    if table == [] then 0
    else
      var r := table[0];
      (if r.voteId in ids && r.vote != PRESIDENTE && Key(r) == k then 1 else 0) + Tally(table[1..], ids, k)
  }

  /** Rows of group `k` among some plain rows. */
  function KeyCount(rows: seq<DeputyVote>, k: GroupKey): nat {
    if rows == [] then 0 else (if Key(rows[0]) == k then 1 else 0) + KeyCount(rows[1..], k)
  }

  lemma VotationRowsCons(r: DeputyVote, rest: seq<DeputyVote>, id: string)
    ensures VotationRows([r] + rest, id) == (if r.voteId == id then [r] else []) + VotationRows(rest, id)
  {
    assert ([r] + rest)[1..] == rest;
  }

  lemma {:induction false} VotationRowsConcat(a: seq<DeputyVote>, b: seq<DeputyVote>, id: string)
    ensures VotationRows(a + b, id) == VotationRows(a, id) + VotationRows(b, id)
  {
    if a == [] {
      assert a + b == b;
    } else {
      var head := if a[0].voteId == id then [a[0]] else [];
      assert a + b == [a[0]] + (a[1..] + b);
      assert a == [a[0]] + a[1..];
      VotationRowsCons(a[0], a[1..] + b, id);
      VotationRowsCons(a[0], a[1..], id);
      VotationRowsConcat(a[1..], b, id);
      assert head + (VotationRows(a[1..], id) + VotationRows(b, id))
          == (head + VotationRows(a[1..], id)) + VotationRows(b, id);
    }
  }

  lemma {:induction false} GroupConcat(a: seq<ClassifiedVote>, b: seq<ClassifiedVote>, k: GroupKey)
    ensures Group(a + b, k) == Group(a, k) + Group(b, k)
  {
    if a == [] {
      assert a + b == b;
    } else {
      var ab := a + b;
      assert ab != [] && ab[0] == a[0] && ab[1..] == a[1..] + b;
      GroupConcat(a[1..], b, k);
    }
  }

  lemma {:induction false} GroupOfClassify(rows: seq<DeputyVote>, classify: Classifier, k: GroupKey)
    ensures |Group(Classify(rows, classify), k)| == KeyCount(rows, k)
  {
    if rows != [] {
      var cs := Classify(rows, classify);
      var cs' := Classify(rows[1..], classify);
      GroupOfClassify(rows[1..], classify, k);
      // The tail of the classified rows carries the same records as the classified tail.
      GroupSameRecords(cs[1..], cs', k);
    }
  }

  /** Group sizes depend only on the records, not on the flags. */
  lemma {:induction false} GroupSameRecords(a: seq<ClassifiedVote>, b: seq<ClassifiedVote>, k: GroupKey)
    requires |a| == |b|
    requires forall i :: 0 <= i < |a| ==> a[i].record == b[i].record
    ensures |Group(a, k)| == |Group(b, k)|
  {
    if a != [] {
      GroupSameRecords(a[1..], b[1..], k);
    }
  }

  lemma {:induction false} KeyCountCons(r: DeputyVote, rows: seq<DeputyVote>, k: GroupKey)
    ensures KeyCount([r] + rows, k) == (if Key(r) == k then 1 else 0) + KeyCount(rows, k)
  {
    assert ([r] + rows)[1..] == rows;
  }

  lemma {:induction false} KeyCountOfVotation(table: seq<DeputyVote>, id: string, k: GroupKey)
    ensures KeyCount(WithoutPresident(VotationRows(table, id)), k) == Tally(table, {id}, k)
  {
    if table != [] {
      KeyCountOfVotation(table[1..], id, k);
      var r := table[0];
      var rest := VotationRows(table[1..], id);
      if r.voteId == id {
        assert VotationRows(table, id) == [r] + rest;
        assert ([r] + rest)[0] == r;
        assert ([r] + rest)[1..] == rest;
        if r.vote != PRESIDENTE {
          assert WithoutPresident([r] + rest) == [r] + WithoutPresident(rest);
          KeyCountCons(r, WithoutPresident(rest), k);
        } else {
          assert WithoutPresident([r] + rest) == WithoutPresident(rest);
        }
      } else {
        assert VotationRows(table, id) == rest;
      }
    }
  }

  lemma {:induction false} TallySplit(table: seq<DeputyVote>, ids: set<string>, id: string, k: GroupKey)
    requires id !in ids
    ensures Tally(table, ids + {id}, k) == Tally(table, ids, k) + Tally(table, {id}, k)
  {
    if table != [] {
      TallySplit(table[1..], ids, id, k);
    }
  }

  lemma {:induction false} TallyEmpty(table: seq<DeputyVote>, k: GroupKey)
    ensures Tally(table, {}, k) == 0
  {
    if table != [] {
      TallyEmpty(table[1..], k);
    }
  }

  /**
   * Given distinct votation ids, a group's participation is the number of
   * stored rows of that (block, deputy) across the listed votations, the
   * presiding officer's rows excluded.
   */
  lemma {:induction false} ParticipationCountsRows(ids: seq<string>, table: seq<DeputyVote>, classify: Classifier, k: GroupKey)
    requires NoDup(ids)
    ensures |Group(Merged(ids, table, classify), k)| == Tally(table, (set x | x in ids), k)
  {
    if ids == [] {
      assert (set x | x in ids) == {};
      TallyEmpty(table, k);
    } else {
      var init, id := ids[..|ids| - 1], ids[|ids| - 1];
      assert ids == init + [id];
      LastOfDistinct(init, id);
      ParticipationCountsRows(init, table, classify, k);
      GroupConcat(Merged(init, table, classify), ClassifiedVotation(table, id, classify), k);
      GroupOfClassify(WithoutPresident(VotationRows(table, id)), classify, k);
      KeyCountOfVotation(table, id, k);
      TallySplit(table, (set x | x in init), id, k);
    }
  }

  /** A list of distinct ids ending in `id`: its first part is distinct and lacks `id`. */
  lemma LastOfDistinct(init: seq<string>, id: string)
    requires NoDup(init + [id])
    ensures NoDup(init) && id !in init
    ensures (set x | x in init + [id]) == (set x | x in init) + {id}
  {
    forall i | 0 <= i < |init| ensures init[i] != id {
      assert (init + [id])[i] == init[i] && (init + [id])[|init|] == id;
    }
    forall i, j | 0 <= i < j < |init| ensures init[i] != init[j] {
      assert (init + [id])[i] == init[i] && (init + [id])[j] == init[j];
    }
  }

  /** In the analysis table, a group's participation is the row count of ParticipationCountsRows. */
  lemma AnalysisParticipation(ids: seq<string>, table: seq<DeputyVote>, classify: Classifier, k: GroupKey)
    requires NoDup(ids)
    requires k in Keys(Merged(ids, table, classify))
    ensures Aggregate(Merged(ids, table, classify))[k].totalParticipation == Tally(table, (set x | x in ids), k)
  {
    ParticipationCountsRows(ids, table, classify, k);
  }
}
