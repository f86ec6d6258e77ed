/**
 * The persisted store and the operations that change it: inserting scraped
 * votation metadata whose id is not stored yet (`save_votation_metadata`),
 * fetching the votes of every votation not loaded yet (`update_votation_data`)
 * and analysing every stored votation (`analyze_votations`). The two tables are
 * held in memory: metadata keyed by its primary key, vote rows in insertion
 * order.
 */
module Database {
  import opened Records
  import Aggregation

  /** Committing two new rows with the same primary key fails. */
  datatype DbError = IntegrityError

  /** `sub` is `s` with some elements left out and the rest kept in order. */
  predicate SubsequenceOf<T(==)>(sub: seq<T>, s: seq<T>)
    decreases |s|
  {
    sub == [] || (s != [] && (SubsequenceOf(sub, s[1..]) || (sub[0] == s[0] && SubsequenceOf(sub[1..], s[1..]))))
  }

  /** The entries whose id is not among `existing`, in input order. */
  function NewEntries(existing: set<string>, entries: seq<VotationEntry>): (unseen: seq<VotationEntry>)
    ensures forall e :: multiset(unseen)[e] == if e.id !in existing then multiset(entries)[e] else 0
    ensures forall e :: e in unseen <==> e in entries && e.id !in existing
    ensures SubsequenceOf(unseen, entries)
    ensures |unseen| <= |entries|
  {
    if entries == [] then []
    else
      assert entries == [entries[0]] + entries[1..];
      var rest := NewEntries(existing, entries[1..]);
      if entries[0].id !in existing then
        assert ([entries[0]] + rest)[1..] == rest;
        [entries[0]] + rest
      else rest
  }

  /** No two entries share an id. */
  predicate DistinctIds(entries: seq<VotationEntry>) {
    forall i, j :: 0 <= i < j < |entries| ==> entries[i].id != entries[j].id
  }

  function Ids(entries: seq<VotationEntry>): set<string> {
    set e | e in entries :: e.id
  }

  /** The metadata table after adding the rows built from `entries`. */
  function InsertAll(stored: map<string, VotationMetadata>, entries: seq<VotationEntry>): map<string, VotationMetadata> {
    if entries == [] then stored
    else
      var last := entries[|entries| - 1];
      InsertAll(stored, entries[..|entries| - 1])[last.id := NewVotationMetadata(last)]
  }

  /** Every stored row is filed under its own id. */
  ghost predicate KeyedById(m: map<string, VotationMetadata>) {
    forall id | id in m :: m[id].id == id
  }

  /** The votations whose votes have not been fetched yet. */
  function Pending(m: map<string, VotationMetadata>): set<string> {
    set id | id in m && !m[id].loaded
  }

  /** The table rows built from one votation's scraped records, each tagged with its id. */
  function TagAll(id: string, data: seq<ScrapedVote>): (rows: seq<DeputyVote>)
    ensures |rows| == |data|
    ensures forall i :: 0 <= i < |data| ==> rows[i] == TagVote(id, data[i])
  {
    seq(|data|, i requires 0 <= i < |data| => TagVote(id, data[i]))
  }

  /** The rows added for the votations `ids`, in the order they were processed. */
  function ScrapedRows(ids: seq<string>, scrape: string -> seq<ScrapedVote>): seq<DeputyVote> {
    if ids == [] then []
    else ScrapedRows(ids[..|ids| - 1], scrape) + TagAll(ids[|ids| - 1], scrape(ids[|ids| - 1]))
  }

  class VotationDatabase {
    /** The `votation_metadata` table, keyed by id. */
    var metadata: map<string, VotationMetadata>
    /** The `deputies_votes` table, in insertion order. */
    var votes: seq<DeputyVote>

    ghost predicate Valid()
      reads this
    {
      KeyedById(metadata)
    }

    constructor ()
      ensures Valid()
      ensures metadata == map[] && votes == []
    {
      metadata := map[];
      votes := [];
    }

    /**
     * Adds the entries whose id is not stored yet and returns how many were
     * added. An empty input, or one whose every id is already stored, adds
     * nothing and returns 0. If two new entries share an id the commit fails
     * and nothing is added.
     */
    method SaveVotationMetadata(entries: seq<VotationEntry>) returns (r: Result<nat, DbError>)
      requires Valid()
      modifies this`metadata
      ensures Valid()
      ensures var unseen := NewEntries(old(metadata).Keys, entries);
        if DistinctIds(unseen)
        then r == Success(|unseen|) && metadata == InsertAll(old(metadata), unseen)
        else r == Failure(IntegrityError) && metadata == old(metadata)
    {
      if |entries| == 0 {
        return Success(0);
      }
      var incomingIds := set e | e in entries :: e.id;
      var existingIds := set id | id in metadata.Keys && id in incomingIds;
      var newData := NewEntries(existingIds, entries);
      NewEntriesAgree(metadata.Keys, existingIds, entries);
      if |newData| == 0 {
        return Success(0);
      }
      if !DistinctIds(newData) {
        return Failure(IntegrityError);
      }
      InsertAllKeyedById(metadata, newData);
      metadata := InsertAll(metadata, newData);
      r := Success(|newData|);
    }

    /** Scrapes the latest metadata list and saves it. */
    method UpdateVotationMetadata(scraped: seq<VotationEntry>) returns (r: Result<nat, DbError>)
      requires Valid()
      modifies this`metadata
      ensures Valid()
      ensures var unseen := NewEntries(old(metadata).Keys, scraped);
        if DistinctIds(unseen)
        then r == Success(|unseen|) && metadata == InsertAll(old(metadata), unseen)
        else r == Failure(IntegrityError) && metadata == old(metadata)
    {
      r := SaveVotationMetadata(scraped);
    }

    /**
     * Fetches the votes of every votation not loaded yet, in some order
     * (returned as `processed`): one new row per scraped record, tagged with
     * the votation id, and the votation marked loaded even when the scrape
     * returned nothing. Loaded votations are not scraped; nothing else changes.
     */
    method UpdateVotationData(scrape: string -> seq<ScrapedVote>) returns (processed: seq<string>)
      requires Valid()
      modifies this
      ensures Valid()
      ensures NoDup(processed) && (set id | id in processed) == Pending(old(metadata))
      ensures metadata.Keys == old(metadata).Keys
      ensures forall id | id in metadata :: metadata[id] == old(metadata)[id].(loaded := true)
      ensures votes == old(votes) + ScrapedRows(processed, scrape)
    {
      var pending := set id | id in metadata.Keys && !metadata[id].loaded;
      processed := [];
      assert votes == old(votes) + ScrapedRows(processed, scrape);
      while pending != {}
        invariant Valid()
        invariant metadata.Keys == old(metadata).Keys
        invariant pending <= Pending(old(metadata))
        invariant forall id :: id in processed <==> id in Pending(old(metadata)) && id !in pending
        invariant NoDup(processed)
        invariant forall id | id in metadata ::
          metadata[id] == if id in processed then old(metadata)[id].(loaded := true) else old(metadata)[id]
        invariant votes == old(votes) + ScrapedRows(processed, scrape)
        decreases pending
      {
        var id :| id in pending;
        assert id in Pending(old(metadata));
        assert id in old(metadata).Keys;
        LoadVotation(id, scrape);
        ScrapedRowsAppend(old(votes), processed, id, scrape);
        assert (processed + [id])[..|processed|] == processed;
        NoDupAppend(processed, id);
        processed := processed + [id];
        pending := pending - {id};
      }
      forall id | id in metadata && id !in processed ensures old(metadata)[id].loaded {
        assert id !in Pending(old(metadata));
      }
      assert (set id | id in processed) == Pending(old(metadata));
    }

    /**
     * Fetches the votes of votation `id`, adds them when there are any, and
     * marks the votation loaded either way.
     */
    method LoadVotation(id: string, scrape: string -> seq<ScrapedVote>)
      requires Valid() && id in metadata
      modifies this
      ensures Valid()
      ensures metadata == old(metadata)[id := old(metadata)[id].(loaded := true)]
      ensures votes == old(votes) + TagAll(id, scrape(id))
    {
      var votationData := scrape(id);
      if |votationData| > 0 {
        AddVotationRows(id, votationData);
      } else {
        assert votes + TagAll(id, votationData) == votes;
      }
      metadata := metadata[id := metadata[id].(loaded := true)];
    }

    /** Adds one row per scraped record of votation `id`, tagged with that id. */
    method AddVotationRows(id: string, votationData: seq<ScrapedVote>)
      modifies this`votes
      ensures votes == old(votes) + TagAll(id, votationData)
    {
      var j := 0;
      while j < |votationData|
        invariant 0 <= j <= |votationData|
        invariant votes == old(votes) + TagAll(id, votationData[..j])
      {
        votes := votes + [TagVote(id, votationData[j])];
        j := j + 1;
        assert TagAll(id, votationData[..j]) == TagAll(id, votationData[..j - 1]) + [TagVote(id, votationData[j - 1])];
      }
      assert votationData[..j] == votationData;
    }

    /**
     * Analyses every stored votation, taking the ids in some order (returned
     * as `ids`): fails when no votation is stored.
     */
    method AnalyzeVotations(classify: Aggregation.Classifier)
      returns (ids: seq<string>, r: Result<map<Aggregation.GroupKey, Aggregation.DeputyStats>, Aggregation.AnalysisError>)
      requires Valid()
      ensures NoDup(ids) && (set id | id in ids) == metadata.Keys
      ensures forall i :: 0 <= i < |ids| ==> metadata[ids[i]].id == ids[i]
      ensures r.Failure? <==> metadata == map[]
      ensures r.Success? ==> r.value == Aggregation.Aggregate(Aggregation.Merged(ids, votes, classify))
    {
      var left := metadata.Keys;
      ids := [];
      while left != {}
        invariant left !! (set id | id in ids)
        invariant left + (set id | id in ids) == metadata.Keys
        invariant NoDup(ids)
        decreases left
      {
        var id :| id in left;
        ids := ids + [id];
        left := left - {id};
      }
      assert metadata == map[] <==> ids == [] by {
        if ids != [] { assert ids[0] in metadata.Keys; }
      }
      r := Aggregation.AnalyzeVotations(ids, votes, classify);
    }
  }

  // ---------------------------------------------------------------------------
  // Lemmas

  /** Processing one more votation appends its tagged rows to the table. */
  lemma ScrapedRowsAppend(base: seq<DeputyVote>, ids: seq<string>, id: string, scrape: string -> seq<ScrapedVote>)
    ensures (base + ScrapedRows(ids, scrape)) + TagAll(id, scrape(id)) == base + ScrapedRows(ids + [id], scrape)
  {
    assert (ids + [id])[..|ids|] == ids;
  }

  lemma NoDupAppend(s: seq<string>, x: string)
    requires NoDup(s) && x !in s
    ensures NoDup(s + [x])
  {
  }

  /** Filtering only depends on how the entries' own ids are classified. */
  lemma {:induction false} NewEntriesAgree(s1: set<string>, s2: set<string>, entries: seq<VotationEntry>)
    requires forall e | e in entries :: e.id in s1 <==> e.id in s2
    ensures NewEntries(s1, entries) == NewEntries(s2, entries)
  {
    if entries != [] {
      assert entries[0] in entries;
      assert forall e | e in entries[1..] :: e in entries;
      NewEntriesAgree(s1, s2, entries[1..]);
    }
  }

  lemma {:induction false} InsertAllKeys(stored: map<string, VotationMetadata>, entries: seq<VotationEntry>)
    ensures InsertAll(stored, entries).Keys == stored.Keys + Ids(entries)
  {
    if entries != [] {
      var init, last := entries[..|entries| - 1], entries[|entries| - 1];
      InsertAllKeys(stored, init);
      assert entries == init + [last];
      assert Ids(entries) == Ids(init) + {last.id};
    }
  }

  lemma {:induction false} InsertAllKeeps(stored: map<string, VotationMetadata>, entries: seq<VotationEntry>, id: string)
    requires id in stored && id !in Ids(entries)
    ensures id in InsertAll(stored, entries) && InsertAll(stored, entries)[id] == stored[id]
  {
    if entries != [] {
      var init, last := entries[..|entries| - 1], entries[|entries| - 1];
      assert entries == init + [last];
      assert Ids(init) <= Ids(entries);
      InsertAllKeeps(stored, init, id);
    }
  }

  lemma {:induction false} InsertAllNew(stored: map<string, VotationMetadata>, entries: seq<VotationEntry>, k: nat)
    requires DistinctIds(entries)
    requires k < |entries|
    ensures entries[k].id in InsertAll(stored, entries)
    ensures InsertAll(stored, entries)[entries[k].id] == NewVotationMetadata(entries[k])
  {
    var init, last := entries[..|entries| - 1], entries[|entries| - 1];
    if k < |entries| - 1 {
      assert init[k] == entries[k];
      InsertAllNew(stored, init, k);
    }
  }

  lemma InsertAllKeyedById(stored: map<string, VotationMetadata>, entries: seq<VotationEntry>)
    requires KeyedById(stored)
    requires DistinctIds(entries)
    ensures KeyedById(InsertAll(stored, entries))
  {
    var after := InsertAll(stored, entries);
    InsertAllKeys(stored, entries);
    forall id | id in after ensures after[id].id == id {
      if id in Ids(entries) {
        var e :| e in entries && e.id == id;
        var k :| 0 <= k < |entries| && entries[k] == e;
        InsertAllNew(stored, entries, k);
      } else {
        InsertAllKeeps(stored, entries, id);
      }
    }
  }

  lemma {:induction false} DistinctIdsCount(entries: seq<VotationEntry>)
    requires DistinctIds(entries)
    ensures |Ids(entries)| == |entries|
  {
    if entries != [] {
      var init, last := entries[..|entries| - 1], entries[|entries| - 1];
      DistinctIdsSplit(entries);
      DistinctIdsCount(init);
      IdsSnoc(init, last);
    }
  }

  /** Without its last entry the list still has distinct ids, none equal to the last one's. */
  lemma DistinctIdsSplit(entries: seq<VotationEntry>)
    requires DistinctIds(entries) && entries != []
    ensures DistinctIds(entries[..|entries| - 1])
    ensures entries[|entries| - 1].id !in Ids(entries[..|entries| - 1])
    ensures entries == entries[..|entries| - 1] + [entries[|entries| - 1]]
  {
    var init := entries[..|entries| - 1];
    forall e | e in init ensures e.id != entries[|entries| - 1].id {
      var i :| 0 <= i < |init| && init[i] == e;
    }
  }

  lemma IdsSnoc(init: seq<VotationEntry>, last: VotationEntry)
    ensures Ids(init + [last]) == Ids(init) + {last.id}
  {
    forall id | id in Ids(init + [last]) ensures id in Ids(init) + {last.id} {
      var e :| e in init + [last] && e.id == id;
      if e != last {
        assert e in init;
      }
    }
    forall id | id in Ids(init) + {last.id} ensures id in Ids(init + [last]) {
      if id == last.id {
        assert last in init + [last];
      } else {
        var e :| e in init && e.id == id;
        assert e in init + [last];
      }
    }
  }

  lemma StoredPlusUnseen(stored: map<string, VotationMetadata>, entries: seq<VotationEntry>)
    ensures stored.Keys + Ids(NewEntries(stored.Keys, entries)) == stored.Keys + Ids(entries)
    ensures stored.Keys !! Ids(NewEntries(stored.Keys, entries))
  {
    var unseen := NewEntries(stored.Keys, entries);
    forall e | e in entries && e.id !in stored ensures e.id in Ids(unseen) {
      assert e in unseen;
    }
    forall id | id in Ids(unseen) ensures id in Ids(entries) && id !in stored {
      var e :| e in unseen && e.id == id;
    }
  }

  /**
   * The count returned by a successful save is the number of rows the table
   * grew by, and afterwards every incoming id is stored.
   */
  lemma SaveCountsAdded(stored: map<string, VotationMetadata>, entries: seq<VotationEntry>)
    requires DistinctIds(NewEntries(stored.Keys, entries))
    ensures var after := InsertAll(stored, NewEntries(stored.Keys, entries));
      && |after.Keys| == |stored.Keys| + |NewEntries(stored.Keys, entries)|
      && after.Keys == stored.Keys + Ids(entries)
  {
    var unseen := NewEntries(stored.Keys, entries);
    InsertAllKeys(stored, unseen);
    DistinctIdsCount(unseen);
    StoredPlusUnseen(stored, entries);
    DisjointUnionSize(stored.Keys, Ids(unseen));
  }

  lemma DisjointUnionSize(a: set<string>, b: set<string>)
    requires a !! b
    ensures |a + b| == |a| + |b|
  {
  }

  lemma {:induction false} NothingUnseen(existing: set<string>, entries: seq<VotationEntry>)
    requires forall e | e in entries :: e.id in existing
    ensures NewEntries(existing, entries) == []
  {
    if entries != [] {
      assert entries[0] in entries;
      assert forall e | e in entries[1..] :: e in entries;
      NothingUnseen(existing, entries[1..]);
    }
  }

  /** A save never changes a row that was already stored, and fills each new row from its entry with the column defaults. */
  lemma SaveKeepsStoredRows(stored: map<string, VotationMetadata>, entries: seq<VotationEntry>)
    requires DistinctIds(NewEntries(stored.Keys, entries))
    ensures var after := InsertAll(stored, NewEntries(stored.Keys, entries));
      && (forall id | id in stored :: id in after && after[id] == stored[id])
      && (forall e | e in NewEntries(stored.Keys, entries) :: e.id in after && after[e.id] == NewVotationMetadata(e))
  {
    var unseen := NewEntries(stored.Keys, entries);
    forall id | id in stored ensures id in InsertAll(stored, unseen) && InsertAll(stored, unseen)[id] == stored[id] {
      InsertAllKeeps(stored, unseen, id);
    }
    forall e | e in unseen ensures e.id in InsertAll(stored, unseen) && InsertAll(stored, unseen)[e.id] == NewVotationMetadata(e) {
      var k :| 0 <= k < |unseen| && unseen[k] == e;
      InsertAllNew(stored, unseen, k);
    }
  }

  /** Saving the same entries again selects nothing, so it returns 0 and leaves the table as it is. */
  lemma SaveIdempotent(stored: map<string, VotationMetadata>, entries: seq<VotationEntry>)
    requires DistinctIds(NewEntries(stored.Keys, entries))
    ensures NewEntries(InsertAll(stored, NewEntries(stored.Keys, entries)).Keys, entries) == []
  {
    SaveCountsAdded(stored, entries);
    var after := InsertAll(stored, NewEntries(stored.Keys, entries));
    assert forall e | e in entries :: e.id in Ids(entries);
    NothingUnseen(after.Keys, entries);
  }

  lemma {:induction false} VotationRowsOfTagged(x: string, data: seq<ScrapedVote>, id: string)
    ensures Aggregation.VotationRows(TagAll(x, data), id) == if x == id then TagAll(x, data) else []
  {
    if data != [] {
      VotationRowsOfTagged(x, data[1..], id);
      assert TagAll(x, data) == [TagVote(x, data[0])] + TagAll(x, data[1..]);
      assert TagAll(x, data)[1..] == TagAll(x, data[1..]);
    }
  }

  /**
   * Querying the rows added by one update for a votation yields exactly that
   * votation's scraped records, in scrape order, each tagged with its id; a
   * votation that was not processed gets none.
   */
  lemma {:induction false} ScrapedRowsByVotation(ids: seq<string>, scrape: string -> seq<ScrapedVote>, id: string)
    requires NoDup(ids)
    ensures Aggregation.VotationRows(ScrapedRows(ids, scrape), id)
      == if id in ids then TagAll(id, scrape(id)) else []
  {
    if ids != [] {
      var init, last := ids[..|ids| - 1], ids[|ids| - 1];
      assert ids == init + [last];
      assert NoDup(init);
      assert last !in init;
      ScrapedRowsByVotation(init, scrape, id);
      Aggregation.VotationRowsConcat(ScrapedRows(init, scrape), TagAll(last, scrape(last)), id);
      VotationRowsOfTagged(last, scrape(last), id);
      if id in init {
        assert id != last;
      }
    }
  }
}
