/** The ingestion pipeline: each policy document that exists on disk is split into
    chunks, and each chunk is handed to the vector collection with an id
    "{policy_id}_{i}" and metadata naming the policy, owner, file and chunk index.
    A watermark records the last policy ingested, so the next run fetches only
    newer policies. The collection is modelled as the list of batches added to it. */
module Ingestion {
  import opened Wrappers
  import opened Text
  import opened Seqs
  import opened Chunking

  /** The columns of a policy row the pipeline reads. */
  datatype PolicyRow = PolicyRow(id: int, userId: int, documents: seq<string>)

  datatype ChunkMeta = ChunkMeta(policyId: int, userId: int, file: string, chunk: nat)

  /** The arguments of one `collection.add` call. */
  datatype Batch = Batch(ids: seq<string>, documents: seq<string>, metadatas: seq<ChunkMeta>)

  /** What the pipeline gets from its surroundings: the backend directory, the
      files that exist, the text the PDF reader extracts from a file ("" when it
      cannot read it), and whether the collection takes a batch. `accepts(b)` is
      false for an `add` call that raises; the exception ends the run. */
  datatype Env = Env(root: string, existing: set<string>, extract: string -> string, accepts: Batch -> bool)

  /** Python's `os.path.join(a, b)` for two components: an absolute `b` replaces
      `a`; otherwise `b` is appended after one separator. */
  function JoinPath(a: string, b: string): (r: string)
    ensures b != [] && b[0] == '/' ==> r == b
    ensures (b == [] || b[0] != '/') ==> StartsWith(r, a) && |b| <= |r| && r[|r| - |b|..] == b
    ensures a != [] && a[|a| - 1] != '/' && (b == [] || b[0] != '/') ==>
      |r| == |a| + 1 + |b| && r[|a|] == '/'
    ensures (a == [] || a[|a| - 1] == '/') && (b == [] || b[0] != '/') ==> |r| == |a| + |b|
  {
    if b != [] && b[0] == '/' then b
    else if a == [] || a[|a| - 1] == '/' then
      assert (a + b)[..|a|] == a;
      a + b
    else
      assert (a + "/" + b)[..|a|] == a;
      a + "/" + b
  }

  /** The file a stored document path names: leading slashes stripped, then joined
      to the backend directory. */
  function FullPath(root: string, docPath: string): (r: string)
    ensures StartsWith(r, root)
    ensures var rel := TrimStartChar(docPath, '/'); |rel| <= |r| && r[|r| - |rel|..] == rel
  {
    JoinPath(root, TrimStartChar(docPath, '/'))
  }

  /** Because the leading slashes are stripped, the joined path begins with the
      backend directory (as a string; a ".." component is not resolved). Joining
      "/uploads/..." unstripped would have discarded the directory. */
  lemma FullPathStartsWithRoot(root: string, docPath: string)
    ensures StartsWith(FullPath(root, docPath), root)
    ensures docPath != [] && docPath[0] == '/' ==> JoinPath(root, docPath) == docPath
  {
  }

  /** `f"{policy_id}_{i}"`. */
  function ChunkId(policyId: int, i: nat): (r: string)
    ensures var pid := IntToString(policyId);
      |pid| + 2 <= |r| && r[..|pid|] == pid && r[|pid|] == '_' &&
      forall k :: |pid| < k < |r| ==> IsDigit(r[k])
  {
    var pid := IntToString(policyId);
    var r := pid + "_" + NatToString(i);
    assert forall k :: |pid| < k < |r| ==> r[k] == NatToString(i)[k - |pid| - 1];
    r
  }

  /** The ids of one document's chunks. */
  function ChunkIds(policyId: int, n: nat): (r: seq<string>)
    ensures |r| == n
    ensures forall i :: 0 <= i < n ==> r[i] == ChunkId(policyId, i)
  {
    seq(n, i requires 0 <= i => ChunkId(policyId, i))
  }

  /** The metadata of one document's chunks. */
  function ChunkMetas(policyId: int, userId: int, file: string, n: nat): (r: seq<ChunkMeta>)
    ensures |r| == n
    ensures forall i :: 0 <= i < n ==> r[i] == ChunkMeta(policyId, userId, file, i)
  {
    seq(n, i requires 0 <= i => ChunkMeta(policyId, userId, file, i))
  }

  /** Within one document the chunk ids are pairwise different. */
  lemma ChunkIdsDistinct(policyId: int, i: nat, j: nat)
    requires i != j
    ensures ChunkId(policyId, i) != ChunkId(policyId, j)
  {
    var prefix := IntToString(policyId) + "_";
    if ChunkId(policyId, i) == ChunkId(policyId, j) {
      assert (prefix + NatToString(i))[|prefix|..] == NatToString(i);
      assert (prefix + NatToString(j))[|prefix|..] == NatToString(j);
      NatToStringInjective(i, j);
    }
  }

  /** The ids do not mention the document, so two documents of one policy reuse
      the same ids for their first chunks. */
  lemma ChunkIdsRepeatAcrossDocuments(p: PolicyRow, env: Env, d1: string, d2: string)
    requires |Chunks(env.extract(FullPath(env.root, d1)), ChunkSize, ChunkOverlap)| > 0
    requires |Chunks(env.extract(FullPath(env.root, d2)), ChunkSize, ChunkOverlap)| > 0
    ensures DocumentBatch(p, env, d1).ids[0] == DocumentBatch(p, env, d2).ids[0]
  {
  }

  /** The batch added for one document that exists. */
  function DocumentBatch(p: PolicyRow, env: Env, docPath: string): (b: Batch)
    ensures |b.ids| == |b.documents| == |b.metadatas|
  {
    var file := FullPath(env.root, docPath);
    var chunks := Chunks(env.extract(file), ChunkSize, ChunkOverlap);
    Batch(ChunkIds(p.id, |chunks|), chunks, ChunkMetas(p.id, p.userId, file, |chunks|))
  }

  /** Entry `i` of a document's batch is chunk `i` with id "{policy_id}_{i}" and the
      policy's owner, and every id in the batch is different. */
  lemma DocumentBatchEntries(p: PolicyRow, env: Env, docPath: string, i: nat, j: nat)
    requires i < |DocumentBatch(p, env, docPath).ids| && j < |DocumentBatch(p, env, docPath).ids|
    ensures var b, file := DocumentBatch(p, env, docPath), FullPath(env.root, docPath);
      b.documents == Chunks(env.extract(file), ChunkSize, ChunkOverlap) &&
      b.ids[i] == IntToString(p.id) + "_" + NatToString(i) &&
      b.metadatas[i] == ChunkMeta(p.id, p.userId, file, i) &&
      (i != j ==> b.ids[i] != b.ids[j])
  {
    if i != j {
      ChunkIdsDistinct(p.id, i, j);
    }
  }

  /** What `ingest_policy` has added so far, and whether it is still going: a batch
      the collection refuses raises, which ends the policy and the run. */
  datatype Progress = Progress(added: seq<Batch>, ok: bool)

  /** `ingest_policy` over the first documents `docs`: one batch per document whose
      file exists, in document order, up to the first batch the collection refuses. */
  function DocumentBatches(p: PolicyRow, env: Env, docs: seq<string>): (r: Progress)
    ensures |r.added| <= |docs|
  {
    if docs == [] then Progress([], true)
    else
      var prev := DocumentBatches(p, env, docs[..|docs| - 1]);
      var last := docs[|docs| - 1];
      if !prev.ok || FullPath(env.root, last) !in env.existing then prev
      else
        var b := DocumentBatch(p, env, last);
        if env.accepts(b) then Progress(prev.added + [b], true) else Progress(prev.added, false)
  }

  /** Only documents whose file exists produce a batch: with no existing files there
      is nothing to add, and nothing can be refused. */
  lemma {:induction false} MissingFilesAreSkipped(p: PolicyRow, env: Env, docs: seq<string>)
    requires forall d :: d in docs ==> FullPath(env.root, d) !in env.existing
    ensures DocumentBatches(p, env, docs) == Progress([], true)
  {
    if docs != [] {
      MissingFilesAreSkipped(p, env, docs[..|docs| - 1]);
    }
  }

  /** Once a refused batch has stopped the policy, later documents add nothing. */
  lemma {:induction false} FailureSticks(p: PolicyRow, env: Env, docs: seq<string>, k: nat)
    requires k <= |docs| && !DocumentBatches(p, env, docs[..k]).ok
    ensures DocumentBatches(p, env, docs) == DocumentBatches(p, env, docs[..k])
    decreases |docs| - k
  {
    if k < |docs| {
      assert docs[..k + 1][..k] == docs[..k];
      FailureSticks(p, env, docs, k + 1);
    } else {
      assert docs[..k] == docs;
    }
  }

  /** One more document scanned: a missing file changes nothing, an accepted batch
      is appended to what was added before, and a refused one stops the policy. */
  lemma NextDocumentBatches(before: seq<Batch>, p: PolicyRow, env: Env, docs: seq<string>, k: nat)
    requires k < |docs| && DocumentBatches(p, env, docs[..k]).ok
    ensures var prev, next := DocumentBatches(p, env, docs[..k]), DocumentBatches(p, env, docs[..k + 1]);
      var b := DocumentBatch(p, env, docs[k]);
      (FullPath(env.root, docs[k]) !in env.existing ==> next == prev) &&
      (FullPath(env.root, docs[k]) in env.existing && env.accepts(b) ==>
        next.ok && before + next.added == (before + prev.added) + [b]) &&
      (FullPath(env.root, docs[k]) in env.existing && !env.accepts(b) ==>
        next == Progress(prev.added, false))
  {
    assert docs[..k + 1][..k] == docs[..k];
  }

  /** A collection that refuses an empty batch, as `add` does for an empty id list,
      stops the policy at an existing document from which no text was extracted. */
  lemma UnreadableDocumentStopsPolicy(p: PolicyRow, env: Env, docs: seq<string>, k: nat)
    requires forall b: Batch :: b.ids == [] ==> !env.accepts(b)
    requires k < |docs| && FullPath(env.root, docs[k]) in env.existing
    requires env.extract(FullPath(env.root, docs[k])) == ""
    ensures !DocumentBatches(p, env, docs).ok
  {
    assert docs[..k + 1][..k] == docs[..k];
    if DocumentBatches(p, env, docs[..k]).ok {
      EmptyTextHasNoChunks(ChunkSize, ChunkOverlap);
      assert DocumentBatch(p, env, docs[k]).ids == [];
      FailureSticks(p, env, docs, k + 1);
    } else {
      FailureSticks(p, env, docs, k);
    }
  }

  /** What a run over `policies` has added, how many policies it completed (the
      watermark is written after each), and whether it got through all of them. */
  datatype RunProgress = RunProgress(added: seq<Batch>, done: nat, ok: bool)

  /** The batches of a run over several policies, in policy order, up to the policy
      a refused batch stopped. */
  function RunBatches(env: Env, policies: seq<PolicyRow>): (r: RunProgress)
    ensures r.done <= |policies|
    ensures r.ok ==> r.done == |policies|
    ensures !r.ok ==> r.done < |policies|
  {
    if policies == [] then RunProgress([], 0, true)
    else
      var prev := RunBatches(env, policies[..|policies| - 1]);
      var last := policies[|policies| - 1];
      if !prev.ok then prev
      else
        var o := DocumentBatches(last, env, last.documents);
        RunProgress(prev.added + o.added, if o.ok then prev.done + 1 else prev.done, o.ok)
  }

  /** Once a policy has been stopped, the run processes no further policy. */
  lemma {:induction false} RunFailureSticks(env: Env, policies: seq<PolicyRow>, k: nat)
    requires k <= |policies| && !RunBatches(env, policies[..k]).ok
    ensures RunBatches(env, policies) == RunBatches(env, policies[..k])
    decreases |policies| - k
  {
    if k < |policies| {
      assert policies[..k + 1][..k] == policies[..k];
      RunFailureSticks(env, policies, k + 1);
    } else {
      assert policies[..k] == policies;
    }
  }

  /** One more policy processed appends its batches to what was added before; it
      counts as completed only when none of its batches was refused. */
  lemma NextPrefixBatches(before: seq<Batch>, env: Env, policies: seq<PolicyRow>, k: nat)
    requires k < |policies| && RunBatches(env, policies[..k]).ok
    ensures var prev, next := RunBatches(env, policies[..k]), RunBatches(env, policies[..k + 1]);
      var o := DocumentBatches(policies[k], env, policies[k].documents);
      before + next.added == (before + prev.added) + o.added &&
      next.ok == o.ok && next.done == (if o.ok then k + 1 else k)
  {
    var prefix := policies[..k + 1];
    assert prefix[..|prefix| - 1] == policies[..k] && prefix[|prefix| - 1] == policies[k];
    var prev := RunBatches(env, policies[..k]);
    var o := DocumentBatches(policies[k], env, policies[k].documents);
    assert RunBatches(env, prefix).added == prev.added + o.added;
    assert before + (prev.added + o.added) == (before + prev.added) + o.added;
  }

  /** Python truthiness of an optional id: present and non-zero. */
  predicate TruthyId(x: Option<int>) {
    x.Some? && x.value != 0
  }

  /** The table as `ORDER BY id ASC` returns it: ids strictly increasing and
      positive (a serial column). */
  predicate AscendingIds(db: seq<PolicyRow>) {
    (forall i, j :: 0 <= i < j < |db| ==> db[i].id < db[j].id) &&
    (forall i :: 0 <= i < |db| ==> db[i].id > 0)
  }

  function IdAbove(last: int): PolicyRow -> bool {
    (row: PolicyRow) => row.id > last
  }

  function IdIs(id: int): PolicyRow -> bool {
    (row: PolicyRow) => row.id == id
  }

  /** `fetch_policies_by_id` for a given id, otherwise `fetch_policies(watermark)`:
      the rows with an id above the watermark, or every row when the watermark is
      absent or zero. */
  function FetchPolicies(db: seq<PolicyRow>, watermark: Option<int>, specific: Option<int>): (r: seq<PolicyRow>)
    ensures |r| <= |db|
    ensures TruthyId(specific) ==> forall i :: 0 <= i < |r| ==> r[i].id == specific.value
    ensures !TruthyId(specific) && TruthyId(watermark) ==>
      forall i :: 0 <= i < |r| ==> r[i].id > watermark.value
    ensures TruthyId(specific) ==> forall x :: x in db && x.id == specific.value ==> x in r
    ensures !TruthyId(specific) && TruthyId(watermark) ==>
      forall x :: x in db && x.id > watermark.value ==> x in r
    ensures !TruthyId(specific) && !TruthyId(watermark) ==> r == db
  {
    if TruthyId(specific) then
      FilterKeepsAccepted(IdIs(specific.value), db);
      Filter(IdIs(specific.value), db)
    else if TruthyId(watermark) then
      FilterKeepsAccepted(IdAbove(watermark.value), db);
      Filter(IdAbove(watermark.value), db)
    else db
  }

  /** The watermark after a run: the id of the last policy completed, or the old
      watermark when none was. A run for a given id can only move it to that id;
      a regular run only moves it forward. */
  function NextWatermark(db: seq<PolicyRow>, watermark: Option<int>, specific: Option<int>, env: Env): (r: Option<int>)
    ensures TruthyId(specific) && r != watermark ==> r == specific
    ensures !TruthyId(specific) && TruthyId(watermark) && r != watermark ==>
      r.Some? && r.value > watermark.value
  {
    var policies := FetchPolicies(db, watermark, specific);
    var done := RunBatches(env, policies).done;
    if done == 0 then watermark else Some(policies[done - 1].id)
  }

  /** On a sorted table the rows above a watermark are a suffix of it. */
  lemma {:induction false} AboveIsSuffix(db: seq<PolicyRow>, last: int)
    requires AscendingIds(db)
    ensures var f := Filter(IdAbove(last), db);
      |f| <= |db| && f == db[|db| - |f|..]
  {
    if db != [] {
      var f := Filter(IdAbove(last), db);
      assert AscendingIds(db[1..]);
      AboveIsSuffix(db[1..], last);
      if db[0].id > last {
        forall x | x in db ensures IdAbove(last)(x) {
          var i :| 0 <= i < |db| && db[i] == x;
        }
        FilterKeepsAll(IdAbove(last), db);
      } else {
        var rest := Filter(IdAbove(last), db[1..]);
        assert f == rest;
        assert db[1..][|db| - 1 - |rest|..] == db[|db| - |rest|..];
      }
    }
  }

  /** The rows a regular run fetches are a suffix of the sorted table. */
  lemma RegularFetchIsSuffix(db: seq<PolicyRow>, watermark: Option<int>)
    requires AscendingIds(db)
    ensures var f := FetchPolicies(db, watermark, None);
      |f| <= |db| && f == db[|db| - |f|..]
  {
    if TruthyId(watermark) {
      AboveIsSuffix(db, watermark.value);
    }
  }

  /** Nothing in a sorted table lies above its last row. */
  lemma {:induction false} NothingAboveTop(db: seq<PolicyRow>)
    requires AscendingIds(db) && db != []
    ensures Filter(IdAbove(db[|db| - 1].id), db) == []
  {
    var top := db[|db| - 1];
    var after := Filter(IdAbove(top.id), db);
    if after != [] {
      FilterMembership(IdAbove(top.id), db, after[0]);
      var i :| 0 <= i < |db| && db[i] == after[0];
    }
  }

  /** After a regular run that completes, the watermark is the largest id in the
      table, so running again with no new rows fetches nothing. */
  lemma RerunFetchesNothing(db: seq<PolicyRow>, watermark: Option<int>, env: Env)
    requires AscendingIds(db)
    requires RunBatches(env, FetchPolicies(db, watermark, None)).ok
    ensures FetchPolicies(db, NextWatermark(db, watermark, None, env), None) == [] ||
            FetchPolicies(db, watermark, None) == []
  {
    if FetchPolicies(db, watermark, None) != [] {
      CompletedRunReachesTop(db, watermark, env);
      NothingAboveTop(db);
    }
  }

  /** A regular run that completes every fetched row moves the watermark to the
      table's last id. */
  lemma CompletedRunReachesTop(db: seq<PolicyRow>, watermark: Option<int>, env: Env)
    requires AscendingIds(db)
    requires RunBatches(env, FetchPolicies(db, watermark, None)).ok
    requires FetchPolicies(db, watermark, None) != []
    ensures db != [] && NextWatermark(db, watermark, None, env) == Some(db[|db| - 1].id)
  {
    var fetched := FetchPolicies(db, watermark, None);
    RegularFetchIsSuffix(db, watermark);
    assert fetched[|fetched| - 1] == db[|db| - 1];
  }

  /** A regular run stopped by a refused batch leaves the watermark before the
      policy it stopped at, so the next regular run fetches that policy again. */
  lemma FailedRunIsRetried(db: seq<PolicyRow>, watermark: Option<int>, env: Env)
    requires AscendingIds(db)
    requires !RunBatches(env, FetchPolicies(db, watermark, None)).ok
    ensures var fetched := FetchPolicies(db, watermark, None);
      fetched[RunBatches(env, fetched).done] in FetchPolicies(db, NextWatermark(db, watermark, None, env), None)
  {
    var fetched := FetchPolicies(db, watermark, None);
    var done := RunBatches(env, fetched).done;
    var stopped := fetched[done];
    if done > 0 {
      RegularFetchIsSuffix(db, watermark);
      var off := |db| - |fetched|;
      var mark := fetched[done - 1].id;
      assert fetched[done - 1] == db[off + done - 1] && stopped == db[off + done];
      assert mark > 0 && stopped.id > mark;
      assert NextWatermark(db, watermark, None, env) == Some(mark);
      assert stopped in db;
    }
  }

  /** A run for one given id moves the watermark to that id, also backwards: the
      next regular run then fetches rows that were already ingested. */
  lemma SpecificRunCanRewindWatermark(env: Env)
    ensures var db := [PolicyRow(3, 1, []), PolicyRow(10, 1, [])];
      NextWatermark(db, Some(10), Some(3), env) == Some(3) &&
      FetchPolicies(db, Some(3), None) == [PolicyRow(10, 1, [])]
  {
    var db := [PolicyRow(3, 1, []), PolicyRow(10, 1, [])];
    assert db[1..] == [PolicyRow(10, 1, [])] && db[1..][1..] == [];
    assert Filter(IdIs(3), db) == [PolicyRow(3, 1, [])];
    assert Filter(IdAbove(3), db) == [PolicyRow(10, 1, [])];
    var fetched := [PolicyRow(3, 1, [])];
    assert fetched[..0] == [];
    assert RunBatches(env, fetched).done == 1;
  }

  /** The pipeline's persistent state: the watermark file and the collection. */
  class Ingestor {
    var watermark: Option<int>
    var collection: seq<Batch>

    constructor (saved: Option<int>)
      ensures watermark == saved && collection == []
    {
      watermark := saved;
      collection := [];
    }

    /** The body of the document loop of `ingest_policy` for a file that exists:
        extracts its text, chunks it, and names and describes every chunk. */
    static method BuildBatch(p: PolicyRow, env: Env, docPath: string) returns (b: Batch)
      ensures b == DocumentBatch(p, env, docPath)
    {
      var full := FullPath(env.root, docPath);
      var text := env.extract(full);
      var chunks := ChunkText(text, ChunkSize, ChunkOverlap);
      var ids := ChunkIds(p.id, |chunks|);
      var metadatas := ChunkMetas(p.id, p.userId, full, |chunks|);
      b := Batch(ids, chunks, metadatas);
    }

    /** `ingest_policy`: one batch per document whose file exists, in order, until
        the collection refuses one; `ok` is false when that happened (the call
        raised). A policy without documents adds nothing. */
    method IngestPolicy(p: PolicyRow, env: Env) returns (ok: bool)
      modifies this
      ensures watermark == old(watermark)
      ensures ok == DocumentBatches(p, env, p.documents).ok
      ensures collection == old(collection) + DocumentBatches(p, env, p.documents).added
    {
      var docs := p.documents;
      if docs == [] {
        return true;
      }
      ghost var before := collection;
      for k := 0 to |docs|
        invariant watermark == old(watermark)
        invariant DocumentBatches(p, env, docs[..k]).ok
        invariant collection == before + DocumentBatches(p, env, docs[..k]).added
      {
        NextDocumentBatches(before, p, env, docs, k);
        var full := FullPath(env.root, docs[k]);
        if full !in env.existing {
          continue;
        }
        var batch := BuildBatch(p, env, docs[k]);
        if !env.accepts(batch) {
          FailureSticks(p, env, docs, k + 1);
          return false;
        }
        collection := collection + [batch];
      }
      assert docs[..|docs|] == docs;
      ok := true;
    }

    /** The loop of `run_ingestion`: ingests the policies in list order and records
        each one's id as the watermark once it is done; a policy stopped by a
        refused batch ends the run before its id is recorded. */
    method IngestAll(policies: seq<PolicyRow>, env: Env) returns (ok: bool)
      modifies this
      ensures var run := RunBatches(env, policies);
        ok == run.ok &&
        collection == old(collection) + run.added &&
        watermark == (if run.done == 0 then old(watermark) else Some(policies[run.done - 1].id))
    {
      ghost var before := collection;
      var k := 0;
      while k < |policies|
        invariant k <= |policies|
        invariant RunBatches(env, policies[..k]).ok
        invariant collection == before + RunBatches(env, policies[..k]).added
        invariant watermark == (if k == 0 then old(watermark) else Some(policies[k - 1].id))
      {
        NextPrefixBatches(before, env, policies, k);
        var completed := IngestPolicy(policies[k], env);
        if !completed {
          RunFailureSticks(env, policies, k + 1);
          return false;
        }
        watermark := Some(policies[k].id);
        k := k + 1;
      }
      assert policies[..|policies|] == policies;
      ok := true;
    }

    /** `run_ingestion`: fetches the policies to process; with none the watermark
        stays, otherwise they are ingested in order. `ok` is false when a refused
        batch ended the run. */
    method RunIngestion(db: seq<PolicyRow>, specific: Option<int>, env: Env) returns (ok: bool)
      modifies this
      ensures watermark == NextWatermark(db, old(watermark), specific, env)
      ensures var run := RunBatches(env, FetchPolicies(db, old(watermark), specific));
        ok == run.ok && collection == old(collection) + run.added
    {
      var policies := FetchPolicies(db, watermark, specific);
      if policies == [] {
        return true;
      }
      ok := IngestAll(policies, env);
    }
  }
}
