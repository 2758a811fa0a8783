/**
 * The audit trail: an append-only log of answered queries in which every
 * entry carries the hash of the entry before it.
 */
module EngineAuditTrail {
  import opened Common
  import opened Text

  datatype AuditEntry = AuditEntry(
    timestamp: string,
    query: string,
    nodePath: seq<string>,
    clusterPath: seq<string>,
    hash: string,
    previousHash: Option<string>)

  /** The text that is hashed for an entry: `"{timestamp}:{node ids joined by ,}:{cluster ids joined by ,}"`. */
  function EntryData(timestamp: string, nodePath: seq<string>, clusterPath: seq<string>): string
  {
    timestamp + ":" + Join(nodePath, ",") + ":" + Join(clusterPath, ",")
  }

  /** The hash of the last entry, if there is one. */
  function LastHash(entries: seq<AuditEntry>): Option<string>
  {
    if |entries| == 0 then None else Some(entries[|entries| - 1].hash)
  }

  /** The entry `log_query` appends to `entries`. */
  function NextEntry(
    entries: seq<AuditEntry>, digest: string -> string,
    context: QueryContext, nodePath: seq<string>, clusterPath: seq<string>): AuditEntry
  {
    AuditEntry(
      context.timestamp, context.query, nodePath, clusterPath,
      digest(EntryData(context.timestamp, nodePath, clusterPath)),
      LastHash(entries))
  }

  /** The audit path: every entry's hash, in append order. */
  function Hashes(entries: seq<AuditEntry>): (path: seq<string>)
    ensures |path| == |entries|
    ensures forall i :: 0 <= i < |entries| ==> path[i] == entries[i].hash
  {
    seq(|entries|, i requires 0 <= i < |entries| => entries[i].hash)
  }

  /** What `verify_integrity` checks: every entry but the first links to its predecessor. */
  predicate Linked(entries: seq<AuditEntry>)
  {
    forall i :: 1 <= i < |entries| ==> entries[i].previousHash == Some(entries[i - 1].hash)
  }

  /**
   * What a trail built only by `log_query` satisfies: it is linked, its first
   * entry has no predecessor, and every hash is the digest of its entry's data.
   */
  ghost predicate ChainValid(entries: seq<AuditEntry>, digest: string -> string)
  {
    && Linked(entries)
    && (|entries| > 0 ==> entries[0].previousHash == None)
    && forall i :: 0 <= i < |entries| ==>
         entries[i].hash == digest(EntryData(entries[i].timestamp, entries[i].nodePath, entries[i].clusterPath))
  }

  /** One call of `log_query`, as its arguments. */
  datatype LogCall = LogCall(context: QueryContext, nodePath: seq<string>, clusterPath: seq<string>)

  /** The entries of a new trail after the given calls of `log_query`. */
  function Replay(digest: string -> string, calls: seq<LogCall>): (entries: seq<AuditEntry>)
  {
    if |calls| == 0 then []
    else
      var before := Replay(digest, calls[..|calls| - 1]);
      var c := calls[|calls| - 1];
      before + [NextEntry(before, digest, c.context, c.nodePath, c.clusterPath)]
  }

  /** Appending the entry `log_query` builds keeps a linked trail linked. */
  lemma LogPreservesLinked(
    entries: seq<AuditEntry>, digest: string -> string,
    context: QueryContext, nodePath: seq<string>, clusterPath: seq<string>)
    requires Linked(entries)
    ensures Linked(entries + [NextEntry(entries, digest, context, nodePath, clusterPath)])
  {
    var e := NextEntry(entries, digest, context, nodePath, clusterPath);
    var after := entries + [e];
    forall i | 1 <= i < |after|
      ensures after[i].previousHash == Some(after[i - 1].hash)
    {
      if i < |entries| {
        assert after[i] == entries[i] && after[i - 1] == entries[i - 1];
      }
    }
  }

  /** Appending the entry `log_query` builds keeps a valid chain valid. */
  lemma LogPreservesChainValid(
    entries: seq<AuditEntry>, digest: string -> string,
    context: QueryContext, nodePath: seq<string>, clusterPath: seq<string>)
    requires ChainValid(entries, digest)
    ensures ChainValid(entries + [NextEntry(entries, digest, context, nodePath, clusterPath)], digest)
  {
    LogPreservesLinked(entries, digest, context, nodePath, clusterPath);
  }

  /** Any sequence of `log_query` calls on a new trail leaves one entry per call in a valid chain. */
  lemma {:induction false} ReplayChainValid(digest: string -> string, calls: seq<LogCall>)
    ensures |Replay(digest, calls)| == |calls|
    ensures ChainValid(Replay(digest, calls), digest)
    ensures Linked(Replay(digest, calls))
  {
    if |calls| > 0 {
      var c := calls[|calls| - 1];
      ReplayChainValid(digest, calls[..|calls| - 1]);
      LogPreservesChainValid(Replay(digest, calls[..|calls| - 1]), digest, c.context, c.nodePath, c.clusterPath);
    }
  }

  /** The query text is not hashed: two calls that differ only in it produce the same hash. */
  lemma HashIgnoresQuery(
    entries: seq<AuditEntry>, digest: string -> string,
    c1: QueryContext, c2: QueryContext, nodePath: seq<string>, clusterPath: seq<string>)
    requires c1.timestamp == c2.timestamp
    ensures NextEntry(entries, digest, c1, nodePath, clusterPath).hash
         == NextEntry(entries, digest, c2, nodePath, clusterPath).hash
  {
  }

  /**
   * Ids are joined with "," before hashing, so one id holding a comma hashes
   * like two ids: the node path is not recoverable from the hashed text.
   */
  lemma CommaJoinedIdsCollide(digest: string -> string, context: QueryContext, clusterPath: seq<string>)
    ensures NextEntry([], digest, context, ["a,b"], clusterPath).hash
         == NextEntry([], digest, context, ["a", "b"], clusterPath).hash
  {
    assert ["a", "b"][1..] == ["b"];
    assert Join(["a", "b"], ",") == "a" + "," + "b" == "a,b";
    assert Join(["a,b"], ",") == "a,b";
  }

  /**
   * `verify_integrity` does not recompute hashes: rewriting the query or the
   * paths recorded in an entry leaves a linked trail linked.
   */
  lemma RewrittenEntryStaysLinked(entries: seq<AuditEntry>, i: nat, query: string, nodePath: seq<string>)
    requires Linked(entries) && i < |entries|
    ensures Linked(entries[i := entries[i].(query := query, nodePath := nodePath)])
  {
    var after := entries[i := entries[i].(query := query, nodePath := nodePath)];
    forall j | 1 <= j < |after|
      ensures after[j].previousHash == Some(after[j - 1].hash)
    {
      assert after[j].previousHash == entries[j].previousHash;
      assert after[j - 1].hash == entries[j - 1].hash;
    }
  }

  /** Entry 0 is never checked: any first entry with the same hash keeps the trail linked. */
  lemma FirstEntryUnchecked(entries: seq<AuditEntry>, first: AuditEntry)
    requires Linked(entries) && |entries| > 0 && first.hash == entries[0].hash
    ensures Linked([first] + entries[1..])
  {
    var after := [first] + entries[1..];
    forall j | 1 <= j < |after|
      ensures after[j].previousHash == Some(after[j - 1].hash)
    {
      assert after[j] == entries[j];
      assert after[j - 1].hash == entries[j - 1].hash;
    }
  }

  class AuditTrail {
    /** SHA-256 followed by hex encoding, taken as an uninterpreted deterministic function. */
    const digest: string -> string
    var entries: seq<AuditEntry>

    ghost predicate Valid()
      reads this
    {
      ChainValid(entries, digest)
    }

    /** `AuditTrail::new` (and `Default`): an empty trail. */
    constructor (digest: string -> string)
      ensures this.digest == digest
      ensures entries == [] && Valid()
    {
      this.digest := digest;
      entries := [];
    }

    /**
     * `log_query`: append one entry linked to the former last entry and return
     * the hashes of all entries. It always succeeds.
     */
    method LogQuery(context: QueryContext, nodePath: seq<string>, clusterPath: seq<string>)
      returns (r: Result<seq<string>>)
      modifies this
      ensures entries == old(entries) + [NextEntry(old(entries), digest, context, nodePath, clusterPath)]
      ensures entries[|entries| - 1].previousHash == LastHash(old(entries))
      ensures old(Linked(entries)) ==> Linked(entries)
      ensures old(Valid()) ==> Valid()
      ensures r.Ok? && r.value == Hashes(entries)
      ensures |r.value| == |entries| && r.value[|entries| - 1] == entries[|entries| - 1].hash
    {
      var previousHash := LastHash(entries);
      var hash := digest(EntryData(context.timestamp, nodePath, clusterPath));
      var entry := AuditEntry(context.timestamp, context.query, nodePath, clusterPath, hash, previousHash);
      if Linked(entries) {
        LogPreservesLinked(entries, digest, context, nodePath, clusterPath);
      }
      if Valid() {
        LogPreservesChainValid(entries, digest, context, nodePath, clusterPath);
      }
      entries := entries + [entry];
      r := Ok(Hashes(entries));
    }

    /** `verify_integrity`: true exactly when every entry after the first names its predecessor's hash. */
    method VerifyIntegrity() returns (ok: bool)
      ensures ok == Linked(entries)
      ensures Valid() ==> ok
    {
      var i := 1;
      while i < |entries|
        invariant 1 <= i
        invariant forall j :: 1 <= j < i && j < |entries| ==> entries[j].previousHash == Some(entries[j - 1].hash)
      {
        if entries[i].previousHash != Some(entries[i - 1].hash) {
          return false;
        }
        i := i + 1;
      }
      return true;
    }

    /** `get_entries`: the entries in append order; on a trail built by `log_query` they form a valid chain. */
    function GetEntries(): (r: seq<AuditEntry>)
      reads this
      ensures r == entries
      ensures Valid() ==> ChainValid(r, digest) && Linked(r)
      ensures Valid() && |r| > 0 ==> r[0].previousHash == None
    {
      entries
    }
  }
}
