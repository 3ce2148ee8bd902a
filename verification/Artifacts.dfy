/** The artifact manager: writes with fallback, integrity, legal holds and the retention sweep. */
module Artifacts {
  import opened Seqs
  import opened Dicts
  import opened ArtifactIndexing
  import opened Retention

  type Bytes = seq<bv8>

  type Stores = map<ArtifactWriter?, map<string, Bytes>>

  /**
   A writer keeps the bytes of each artifact apart from those of all others: in a
   dictionary under its id, or in a file that is named by its id.
   */
  class ArtifactWriter {
    const backendName: string
    var store: map<string, Bytes>

    constructor (backendName: string)
      ensures this.backendName == backendName && store == map[]
    {
      this.backendName := backendName;
      store := map[];
    }
  }

  /** The bytes that the record describes. */
  predicate Describes(sha256: Bytes -> string, record: Record, content: Bytes) {
    sha256(content) == record.checksum && |content| == record.sizeBytes
  }

  /**
   Every indexed artifact has a writer that holds its bytes intact, and no writer
   holds anything else.
   */
  ghost predicate Consistent(
      sha256: Bytes -> string, entries: map<string, Record>,
      writerById: map<string, ArtifactWriter>, stores: Stores)
  {
    && writerById.Keys == entries.Keys
    && (forall id | id in writerById ::
          && writerById[id] in stores && id in stores[writerById[id]]
          && Describes(sha256, entries[id], stores[writerById[id]][id]))
    && (forall w, id | w in stores && id in stores[w] :: id in writerById && writerById[id] == w)
  }

  lemma ConsistentAfterWrite(
      sha256: Bytes -> string, entries: map<string, Record>, writerById: map<string, ArtifactWriter>,
      stores: Stores, writer: ArtifactWriter, record: Record, content: Bytes)
    requires Consistent(sha256, entries, writerById, stores)
    requires writer in stores && record.artifactId !in entries && Describes(sha256, record, content)
    ensures Consistent(sha256, entries[record.artifactId := record], writerById[record.artifactId := writer],
                       stores[writer := stores[writer][record.artifactId := content]])
  {
  }

  lemma ConsistentAfterDelete(
      sha256: Bytes -> string, entries: map<string, Record>, writerById: map<string, ArtifactWriter>,
      stores: Stores, id: string)
    requires Consistent(sha256, entries, writerById, stores) && id in entries
    ensures id in writerById && writerById[id] in stores
    ensures Consistent(sha256, entries - {id}, writerById - {id},
                       stores[writerById[id] := stores[writerById[id]] - {id}])
  {
  }

  lemma ConsistentAfterAnnotation(
      sha256: Bytes -> string, entries: map<string, Record>, writerById: map<string, ArtifactWriter>,
      stores: Stores, record: Record)
    requires Consistent(sha256, entries, writerById, stores) && record.artifactId in entries
    requires record.checksum == entries[record.artifactId].checksum
    requires record.sizeBytes == entries[record.artifactId].sizeBytes
    ensures Consistent(sha256, entries[record.artifactId := record], writerById, stores)
  {
  }

  class ArtifactManager {
    const index: ArtifactIndex
    const primary: ArtifactWriter
    const fallback: ArtifactWriter?
    const sha256: Bytes -> string
    var writerById: map<string, ArtifactWriter>

    ghost function Stored(): Stores
      reads primary, fallback
    {
      if fallback == null then map[primary := primary.store]
      else map[primary := primary.store, fallback := fallback.store]
    }

    ghost predicate Invariant()
      reads this`writerById, index, primary, fallback
    {
      && index.Invariant()
      && Consistent(sha256, index.byId.entries, writerById, Stored())
    }

    constructor (primary: ArtifactWriter, fallback: ArtifactWriter?, sha256: Bytes -> string)
      requires primary.store == map[] && (fallback != null ==> fallback.store == map[])
      ensures this.primary == primary && this.fallback == fallback && this.sha256 == sha256
      ensures Invariant() && fresh(index) && index.byId == Empty()
    {
      this.primary, this.fallback, this.sha256 := primary, fallback, sha256;
      index := new ArtifactIndex();
      writerById := map[];
    }

    /** A writer's `write_artifact` with the fresh id, followed by the tracking of the record. */
    method WriteTo(
        writer: ArtifactWriter, artifactId: string, sessionId: string, artifactType: ArtifactType,
        content: Bytes, metadata: map<string, string>, now: real) returns (record: Record)
      requires Invariant() && (writer == primary || writer == fallback) && artifactId !in index.byId.entries
      modifies this`writerById, index, writer`store
      ensures Invariant()
      ensures record == Record(artifactId, sessionId, artifactType, sha256(content), |content|, now,
                               metadata["storage_backend" := writer.backendName])
      ensures index.byId == Put(old(index.byId), artifactId, record)
      ensures writerById == old(writerById)[artifactId := writer]
      ensures writer.store == old(writer.store)[artifactId := content]
    {
      hide Agrees, Consistent, Put;
      record := Record(artifactId, sessionId, artifactType, sha256(content), |content|, now,
                       metadata["storage_backend" := writer.backendName]);
      ConsistentAfterWrite(sha256, index.byId.entries, writerById, Stored(), writer, record, content);
      ghost var stores := Stored();
      assert index.Invariant();
      writer.store := writer.store[artifactId := content];
      assert Stored() == stores[writer := stores[writer][artifactId := content]];
      assert index.Invariant();
      index.Add(record);
      assert index.Invariant();
      assert Stored() == stores[writer := stores[writer][artifactId := content]];
      writerById := writerById[artifactId := writer];
    }

    /**
     Writes through the primary writer, or through the fallback when the primary
     fails; a fault is the message of the exception that the writer raises.
     */
    method Write(
        artifactId: string, sessionId: string, artifactType: ArtifactType, content: Bytes,
        metadata: map<string, string>, now: real, primaryFault: Option<string>, fallbackFault: Option<string>)
      returns (r: Result<Record>)
      requires Invariant() && artifactId !in index.byId.entries
      modifies this`writerById, index, primary, fallback
      ensures Invariant()
      ensures r.Raised? <==> primaryFault.Some? && (fallback == null || fallbackFault.Some?)
      // Without a fallback the error tells the primary's fault, otherwise it is the fallback's own.
      ensures r.Raised? ==> r.error == if fallback == null then "artifact write failed without fallback: " + primaryFault.value
                                       else fallbackFault.value
      ensures r.Raised? ==> index.byId == old(index.byId) && writerById == old(writerById) && Stored() == old(Stored())
      ensures r.Ok? ==> Written(r.value, artifactId, sessionId, artifactType, content,
                                if primaryFault.None? then metadata["storage_backend" := primary.backendName]
                                else metadata["fallback_reason" := primaryFault.value]
                                     ["storage_backend" := fallback.backendName],
                                now)
                        && index.byId == Put(old(index.byId), artifactId, r.value)
                        && writerById == old(writerById)[artifactId := if primaryFault.None? then primary else fallback]
      ensures r.Ok? ==> artifactId in index.byId.entries && Content(artifactId) == content
    {
      hide Agrees, Consistent;
      if primaryFault.None? {
        var record := WriteTo(primary, artifactId, sessionId, artifactType, content, metadata, now);
        return Ok(record);
      }
      if fallback == null {
        return Raised("artifact write failed without fallback: " + primaryFault.value);
      }
      if fallbackFault.Some? {
        return Raised(fallbackFault.value);
      }
      var record := WriteTo(fallback, artifactId, sessionId, artifactType, content,
                            metadata["fallback_reason" := primaryFault.value], now);
      r := Ok(record);
    }

    predicate Written(
        record: Record, artifactId: string, sessionId: string, artifactType: ArtifactType, content: Bytes,
        metadata: map<string, string>, now: real)
    {
      record == Record(artifactId, sessionId, artifactType, sha256(content), |content|, now, metadata)
    }

    /** The bytes kept for an indexed artifact. */
    ghost function Content(id: string): Bytes
      requires Invariant() && id in index.byId.entries
      reads this`writerById, index, primary, fallback
    {
      Stored()[writerById[id]][id]
    }

    method RegisterUploadedArtifact(
        artifactId: string, sessionId: string, artifactType: ArtifactType, content: Bytes, expectedChecksum: string,
        metadata: map<string, string>, now: real, primaryFault: Option<string>, fallbackFault: Option<string>)
      returns (r: Result<Record>)
      requires Invariant() && artifactId !in index.byId.entries
      modifies this`writerById, index, primary, fallback
      ensures Invariant()
      ensures r.Ok? <==> sha256(content) == expectedChecksum
                         && !(primaryFault.Some? && (fallback == null || fallbackFault.Some?))
      ensures r.Ok? ==> r.value.checksum == expectedChecksum && r.value.sizeBytes == |content|
                        && index.byId == Put(old(index.byId), artifactId, r.value)
                        && artifactId in index.byId.entries && Content(artifactId) == content
      ensures r.Raised? ==> index.byId == old(index.byId) && writerById == old(writerById) && Stored() == old(Stored())
    {
      if sha256(content) != expectedChecksum {
        return Raised("uploaded artifact checksum mismatch");
      }
      r := Write(artifactId, sessionId, artifactType, content, metadata, now, primaryFault, fallbackFault);
    }

    method ReadContent(id: string) returns (r: Result<Bytes>)
      requires Invariant()
      ensures r.Ok? <==> id in index.byId.entries
      ensures r.Ok? ==> r.value == Content(id) && Describes(sha256, index.byId.entries[id], r.value)
    {
      if id !in index.byId.entries {
        return Raised("KeyError");
      }
      assert Stored()[writerById[id]] == writerById[id].store;
      r := Ok(writerById[id].store[id]);
    }

    /** In every reachable state the integrity check of an indexed artifact succeeds. */
    method ValidateIntegrity(id: string) returns (r: Result<bool>)
      requires Invariant()
      ensures r == if id in index.byId.entries then Ok(true) else Raised("KeyError")
    {
      if id !in index.byId.entries {
        return Raised("KeyError");
      }
      assert Stored()[writerById[id]] == writerById[id].store;
      r := Ok(sha256(writerById[id].store[id]) == index.byId.entries[id].checksum);
    }

    /** Replaces the metadata of an indexed artifact; nothing else changes. */
    method Annotate(id: string, metadata: map<string, string>) returns (record: Record)
      requires Invariant() && id in index.byId.entries
      modifies index
      ensures Invariant()
      ensures record == old(index.byId.entries[id]).(metadata := metadata)
      ensures index.byId == Put(old(index.byId), id, record)
    {
      record := index.byId.entries[id].(metadata := metadata);
      assert index.Invariant();
      assert record.artifactId == id;
      hide Agrees, Consistent;
      ConsistentAfterAnnotation(sha256, index.byId.entries, writerById, Stored(), record);
      var _ := index.Update(record);
    }

    method SetLegalHold(id: string, caseId: string, reason: Option<string>) returns (r: Result<Record>)
      requires Invariant()
      modifies index
      ensures Invariant()
      ensures r.Ok? <==> caseId != "" && id in old(index.byId).entries
      ensures r.Raised? ==> index.byId == old(index.byId)
      ensures r.Ok? ==>
                && index.byId == Put(old(index.byId), id, r.value)
                && r.value == old(index.byId.entries[id]).(metadata := r.value.metadata)
                && (var marked := old(index.byId.entries[id].metadata)["legal_hold" := "true"]["legal_hold_case_id" := caseId];
                    r.value.metadata == if reason.Some? && reason.value != ""
                                        then marked["legal_hold_reason" := reason.value] else marked)
                // Held under any policy that looks at one of the two keys.
                && forall policy: RetentionPolicy |
                     policy.holdKey == "legal_hold" || policy.caseKey == "legal_hold_case_id" ::
                     Held(policy, r.value)
    {
      hide Agrees, Consistent;
      if caseId == "" {
        return Raised("case_id must not be empty");
      }
      if id !in index.byId.entries {
        return Raised("KeyError");
      }
      var metadata := index.byId.entries[id].metadata["legal_hold" := "true"]["legal_hold_case_id" := caseId];
      if reason.Some? && reason.value != "" {
        metadata := metadata["legal_hold_reason" := reason.value];
      }
      var record := Annotate(id, metadata);
      r := Ok(record);
    }

    method ClearLegalHold(id: string) returns (r: Result<Record>)
      requires Invariant()
      modifies index
      ensures Invariant()
      ensures r.Ok? <==> id in old(index.byId).entries
      ensures r.Raised? ==> index.byId == old(index.byId)
      ensures r.Ok? ==>
                && index.byId == Put(old(index.byId), id, r.value)
                && r.value == old(index.byId.entries[id]).(metadata := r.value.metadata)
                && r.value.metadata == old(index.byId.entries[id].metadata)["legal_hold" := "false"]
                                       - {"legal_hold_case_id", "legal_hold_reason"}
                && !IsLegalHold(r.value, "legal_hold", "legal_hold_case_id")
    {
      hide Agrees, Consistent;
      if id !in index.byId.entries {
        return Raised("KeyError");
      }
      var record := Annotate(id, index.byId.entries[id].metadata["legal_hold" := "false"]
                                 - {"legal_hold_case_id", "legal_hold_reason"});
      r := Ok(record);
    }

    method DeleteRecord(record: Record)
      requires Invariant() && record.artifactId in index.byId.entries
      modifies this`writerById, index, primary, fallback
      ensures Invariant()
      ensures index.byId == Pop(old(index.byId), record.artifactId)
    {
      var id := record.artifactId;
      hide Agrees, Consistent, Pop;
      ConsistentAfterDelete(sha256, index.byId.entries, writerById, Stored(), id);
      ghost var stores := Stored();
      var writer := writerById[id];
      assert stores[writer] == writer.store;
      writer.store := writer.store - {id};
      assert Stored() == stores[writer := stores[writer] - {id}];
      writerById := writerById - {id};
      index.Remove(id);
    }

    /** The first pass: deletes what is too old and not held. */
    method SweepExpired(policy: RetentionPolicy, now: real) returns (removed: nat)
      requires Invariant()
      modifies this`writerById, index, primary, fallback
      ensures Invariant()
      ensures index.All() == Young(policy, now, old(index.All()))
      ensures removed == old(|index.All()|) - |index.All()|
    {
      var all := index.All();
      assert all == Values(index.byId);
      var records := Sort(OldestFirst, all);
      ValuesIdentified(index.byId);
      SortDistinct(OldestFirst, all);
      NothingGone(index.byId);
      ExpiredInAll(policy, now, records);
      assert records[..0] == [];
      hide *;
      removed := 0;
      for i := 0 to |records|
        invariant Invariant() && Left(index.byId, all, ExpiredAmong(policy, now, records[..i]))
        invariant removed == |all| - |index.byId.order|
      {
        var record := records[i];
        ghost var gone := ExpiredAmong(policy, now, records[..i]);
        ExpiredStep(policy, now, records, i);
        if Held(policy, record) {
          assert ExpiredAmong(policy, now, records[..i + 1]) == gone;
          continue;
        }
        if now - record.createdAt > policy.maxAgeSeconds as real {
          DeleteStep(index.byId, all, gone, record);
          DeleteRecord(record);
          removed := removed + 1;
          gone := gone + {record};
        }
        assert Left(index.byId, all, gone);
        assert ExpiredAmong(policy, now, records[..i + 1]) == gone;
      }
      ExpiredInAll(policy, now, records);
      LeftAtEnd(index.byId, all, ExpiredAmong(policy, now, records[..|records|]), NotExpired(policy, now));
    }

    /** The inner loop of the second pass: the items of a session, newest first. */
    method DeleteBeyondLimit(policy: RetentionPolicy, items: seq<Record>, ghost all: seq<Record>)
      returns (removed: nat)
      requires Invariant() && Left(index.byId, all, OverflowAmong(policy, []))
      requires Identified(all) && Distinct(items) && forall r | r in items :: r in all
      modifies this`writerById, index, primary, fallback
      ensures Invariant() && Left(index.byId, all, OverflowAmong(policy, items))
      ensures removed == old(|index.byId.order|) - |index.byId.order|
    {
      TakeEnds(items);
      assert UnheldCount(policy, []) == 0;
      hide *;
      var unheldSeen := 0;
      removed := 0;
      for i := 0 to |items|
        invariant Invariant() && Left(index.byId, all, OverflowAmong(policy, items[..i]))
        invariant unheldSeen == UnheldCount(policy, items[..i])
        invariant removed == old(|index.byId.order|) - |index.byId.order|
      {
        var record := items[i];
        ghost var gone := OverflowAmong(policy, items[..i]);
        OverflowStep(policy, items, i);
        if Held(policy, record) {
          assert OverflowAmong(policy, items[..i + 1]) == gone;
          continue;
        }
        unheldSeen := unheldSeen + 1;
        if unheldSeen <= policy.maxArtifactsPerSession {
          assert OverflowAmong(policy, items[..i + 1]) == gone;
          continue;
        }
        DeleteStep(index.byId, all, gone, record);
        DeleteRecord(record);
        removed := removed + 1;
        assert OverflowAmong(policy, items[..i + 1]) == gone + {record};
      }
    }

    /** The second pass for one session. */
    method SweepSession(policy: RetentionPolicy, session: string) returns (removed: nat)
      requires Invariant()
      modifies this`writerById, index, primary, fallback
      ensures Invariant()
      ensures index.All() == Filter(Spares(policy, old(index.All()), session), old(index.All()))
      ensures removed == old(|index.All()|) - |index.All()|
    {
      ghost var all := index.All();
      var found := index.Lookup(Some(session), None, map[]);
      var items := Sort(NewestFirst, found);
      WantingSession(all, session);
      ValuesIdentified(index.byId);
      SessionItemsDistinct(all, session);
      NothingGone(index.byId);
      OverflowInSession(policy, all, session);
      removed := DeleteBeyondLimit(policy, items, all);
      LeftAtEnd(index.byId, all, OverflowAmong(policy, items), Spares(policy, all, session));
    }

    /** The second pass over all sessions, in whatever order the set of sessions is visited. */
    method SweepOverflow(policy: RetentionPolicy) returns (removed: nat)
      requires Invariant()
      modifies this`writerById, index, primary, fallback
      ensures Invariant()
      ensures index.All() == Filter(Fitting(policy, old(index.All())), old(index.All()))
      ensures removed == old(|index.All()|) - |index.All()|
    {
      ghost var all := index.All();
      var sessions := set r | r in index.All() :: r.sessionId;
      var todo := sessions;
      removed := 0;
      NothingSwept(policy, all, sessions);
      AllSwept(policy, all, sessions);
      while todo != {}
        invariant Invariant() && index.All() == Filter(Swept(policy, all, sessions - todo), all)
        invariant removed == |all| - |index.All()|
        invariant todo <= sessions
        decreases todo
      {
        var session :| session in todo;
        SessionStep(policy, all, sessions, todo, session);
        var count := SweepSession(policy, session);
        removed := removed + count;
        todo := todo - {session};
      }
    }

    /** The retention sweep: what is left and how much was removed. */
    method Cleanup(policy: RetentionPolicy, now: real) returns (removed: nat)
      requires Invariant()
      modifies this`writerById, index, primary, fallback
      ensures Invariant()
      ensures index.All() == Survivors(policy, now, old(index.All()))
      ensures removed == old(|index.All()|) - |index.All()|
    {
      var expired := SweepExpired(policy, now);
      var overflowing := SweepOverflow(policy);
      removed := expired + overflowing;
    }
  }

  ghost function ExpiredAmong(policy: RetentionPolicy, now: real, records: seq<Record>): set<Record> {
    set r | r in records && Expired(policy, now, r)
  }

  lemma ExpiredStep(policy: RetentionPolicy, now: real, records: seq<Record>, i: nat)
    requires Distinct(records) && i < |records|
    ensures records[i] !in ExpiredAmong(policy, now, records[..i])
    ensures ExpiredAmong(policy, now, records[..i + 1]) ==
            if !Held(policy, records[i]) && now - records[i].createdAt > policy.maxAgeSeconds as real
            then ExpiredAmong(policy, now, records[..i]) + {records[i]}
            else ExpiredAmong(policy, now, records[..i])
  {
  }

  lemma ExpiredInAll(policy: RetentionPolicy, now: real, records: seq<Record>)
    ensures ExpiredAmong(policy, now, []) == {}
    ensures forall r | r in records :: r in ExpiredAmong(policy, now, records[..|records|]) <==> Expired(policy, now, r)
  {
  }

  lemma WantingSession(all: seq<Record>, session: string)
    ensures Sort(NewestFirst, Filter(Wanting(Some(session), None, map[]), all)) == SessionItems(all, session)
    ensures forall r | r in SessionItems(all, session) :: r in all
  {
    FilterAgree(Wanting(Some(session), None, map[]), OfSession(session), all);
  }

  ghost function OverflowAmong(policy: RetentionPolicy, items: seq<Record>): set<Record> {
    set r | r in Overflow(policy, items)
  }

  lemma OverflowStep(policy: RetentionPolicy, items: seq<Record>, i: nat)
    requires Distinct(items) && i < |items|
    ensures items[i] !in OverflowAmong(policy, items[..i])
    ensures UnheldCount(policy, items[..i + 1]) ==
            UnheldCount(policy, items[..i]) + (if Held(policy, items[i]) then 0 else 1)
    ensures OverflowAmong(policy, items[..i + 1]) ==
            if !Held(policy, items[i]) && UnheldCount(policy, items[..i]) + 1 > policy.maxArtifactsPerSession
            then OverflowAmong(policy, items[..i]) + {items[i]}
            else OverflowAmong(policy, items[..i])
  {
    TakeSnoc(items, i);
    FilterSnoc(Unheld(policy), items[..i], items[i]);
    assert (items[..i] + [items[i]])[..i] == items[..i];
    if items[i] in Overflow(policy, items[..i]) {
      OverflowSubset(policy, items[..i], items[i]);
    }
  }

  /** The sweep of one session spares the other sessions and what fits the limit. */
  function Spares(policy: RetentionPolicy, all: seq<Record>, session: string): Record -> bool {
    (record: Record) => record.sessionId != session || !Overflows(policy, all, record)
  }

  lemma OverflowInSession(policy: RetentionPolicy, all: seq<Record>, session: string)
    ensures OverflowAmong(policy, []) == {} && UnheldCount(policy, []) == 0
    ensures forall r | r in all ::
              Spares(policy, all, session)(r) <==> r !in OverflowAmong(policy, SessionItems(all, session))
  {
    forall r | r in OverflowAmong(policy, SessionItems(all, session)) ensures r.sessionId == session {
      OverflowSubset(policy, SessionItems(all, session), r);
    }
  }

  /** The sweep of the sessions `done`. */
  function Swept(policy: RetentionPolicy, all: seq<Record>, done: set<string>): Record -> bool {
    (record: Record) => record.sessionId in done ==> !Overflows(policy, all, record)
  }

  lemma NothingSwept(policy: RetentionPolicy, all: seq<Record>, sessions: set<string>)
    ensures Filter(Swept(policy, all, sessions - sessions), all) == all
  {
    FilterAll(Swept(policy, all, sessions - sessions), all);
  }

  lemma AllSwept(policy: RetentionPolicy, all: seq<Record>, sessions: set<string>)
    requires forall r | r in all :: r.sessionId in sessions
    ensures Filter(Swept(policy, all, sessions - {}), all) == Filter(Fitting(policy, all), all)
  {
    FilterAgree(Swept(policy, all, sessions - {}), Fitting(policy, all), all);
  }

  /** Sweeping some sessions does not change what overflows in another. */
  lemma SessionStep(
      policy: RetentionPolicy, all: seq<Record>, sessions: set<string>, todo: set<string>, session: string)
    requires session in todo && todo <= sessions
    ensures var swept := Filter(Swept(policy, all, sessions - todo), all);
            Filter(Spares(policy, swept, session), swept)
            == Filter(Swept(policy, all, sessions - (todo - {session})), all)
  {
    var before, after := Swept(policy, all, sessions - todo), Swept(policy, all, sessions - (todo - {session}));
    var swept := Filter(before, all);
    FilterTwice(before, OfSession(session), OfSession(session), all);
    forall r | r in all ensures after(r) == (before(r) && Spares(policy, swept, session)(r)) {
    }
    FilterTwice(before, Spares(policy, swept, session), after, all);
  }

  function NotIn(gone: set<Record>): Record -> bool {
    (record: Record) => record !in gone
  }

  /** No two records share an id. */
  ghost predicate Identified(records: seq<Record>) {
    Distinct(records) && forall a, b | a in records && b in records && a.artifactId == b.artifactId :: a == b
  }

  lemma ValuesIdentified(byId: Dict<string, Record>)
    requires Valid(byId) && Keyed(byId, RecordId)
    ensures Identified(Values(byId))
  {
  }

  /** What a sweep has left when it has deleted the records `gone`. */
  ghost predicate Left(byId: Dict<string, Record>, all: seq<Record>, gone: set<Record>) {
    && Valid(byId) && Keyed(byId, RecordId)
    && Values(byId) == Filter(NotIn(gone), all)
  }

  lemma NothingGone(byId: Dict<string, Record>)
    requires Valid(byId) && Keyed(byId, RecordId)
    ensures Left(byId, Values(byId), {})
  {
    FilterAll(NotIn({}), Values(byId));
  }

  lemma DeleteStep(byId: Dict<string, Record>, all: seq<Record>, gone: set<Record>, record: Record)
    requires Identified(all) && Left(byId, all, gone)
    requires record in all && record !in gone
    ensures record.artifactId in byId.entries
    ensures Left(Pop(byId, record.artifactId), all, gone + {record})
    ensures |Pop(byId, record.artifactId).order| == |byId.order| - 1
  {
    ValuesMember(byId, RecordId, record);
    var keep := (r: Record) => r.artifactId != record.artifactId;
    ValuesPop(byId, record.artifactId, keep);
    FilterTwice(NotIn(gone), keep, NotIn(gone + {record}), all);
    PopSize(byId, record.artifactId);
  }

  lemma LeftAtEnd(byId: Dict<string, Record>, all: seq<Record>, gone: set<Record>, keep: Record -> bool)
    requires Left(byId, all, gone)
    requires forall r | r in all :: keep(r) <==> r !in gone
    ensures Valid(byId) && Values(byId) == Filter(keep, all) && |Values(byId)| == |byId.order|
  {
    FilterAgree(NotIn(gone), keep, all);
  }
}
