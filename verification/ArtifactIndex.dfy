/** The artifact index: records by id, and the ids of every session. */
module ArtifactIndexing {
  import opened Seqs
  import opened Dicts

  datatype ArtifactType = Screenshot | Trace | Log

  datatype Record = Record(
    artifactId: string, sessionId: string, artifactType: ArtifactType, checksum: string, sizeBytes: nat,
    createdAt: real, metadata: map<string, string>)

  function RecordId(record: Record): string {
    record.artifactId
  }

  predicate IdInSession(entries: map<string, Record>, session: string, id: string) {
    id in entries && entries[id].sessionId == session
  }

  function InSession(entries: map<string, Record>, session: string): string -> bool {
    (id: string) => IdInSession(entries, session, id)
  }

  function Bucket(bySession: map<string, seq<string>>, session: string): seq<string> {
    if session in bySession then bySession[session] else []
  }

  /**
   The secondary index is what a scan would find: every bucket lists the ids of its
   session in the order of the records, and there are no empty buckets. Hence no
   bucket has a duplicate or a dangling id.
   */
  ghost predicate Agrees(byId: Dict<string, Record>, bySession: map<string, seq<string>>) {
    && Valid(byId) && Keyed(byId, RecordId)
    && (forall s :: Bucket(bySession, s) == Filter(InSession(byId.entries, s), byId.order))
    && (forall s | s in bySession :: bySession[s] != [])
  }

  lemma NoDuplicateNoDangling(byId: Dict<string, Record>, bySession: map<string, seq<string>>, s: string)
    requires Agrees(byId, bySession) && s in bySession
    ensures Distinct(bySession[s]) && bySession[s] != []
    ensures forall id | id in bySession[s] :: id in byId.entries && byId.entries[id].sessionId == s
    ensures forall id | id in byId.entries && byId.entries[id].sessionId == s :: id in bySession[s]
  {
    FilterDistinct(InSession(byId.entries, s), byId.order);
    assert bySession[s] == Bucket(bySession, s);
    assert forall id | id in byId.entries :: id in (set k | k in byId.order);
  }

  predicate HasMetadata(record: Record, filters: map<string, string>) {
    forall k | k in filters :: k in record.metadata && record.metadata[k] == filters[k]
  }

  predicate Wanted(record: Record, session: Option<string>, artifactType: Option<ArtifactType>, filters: map<string, string>) {
    && (session.None? || record.sessionId == session.value)
    && (artifactType.None? || record.artifactType == artifactType.value)
    && HasMetadata(record, filters)
  }

  function Wanting(session: Option<string>, artifactType: Option<ArtifactType>, filters: map<string, string>): Record -> bool {
    (record: Record) => Wanted(record, session, artifactType, filters)
  }

  function OfSession(session: string): Record -> bool {
    (record: Record) => record.sessionId == session
  }

  function OfType(artifactType: ArtifactType): Record -> bool {
    (record: Record) => record.artifactType == artifactType
  }

  function WithMetadata(filters: map<string, string>): Record -> bool {
    (record: Record) => HasMetadata(record, filters)
  }

  function WithId(bySession: map<string, seq<string>>, session: string, id: string): map<string, seq<string>> {
    bySession[session := Bucket(bySession, session) + [id]]
  }

  lemma AgreesAfterAdd(byId: Dict<string, Record>, bySession: map<string, seq<string>>, record: Record)
    requires Agrees(byId, bySession)
    ensures Agrees(Put(byId, record.artifactId, record), WithId(bySession, record.sessionId, record.artifactId))
            <==> record.artifactId !in byId.entries
  {
    if record.artifactId in byId.entries {
      AddedTwice(byId, bySession, record);
    } else {
      forall s { BucketAfterAdd(byId, bySession, record, s); }
    }
  }

  lemma BucketAfterAdd(byId: Dict<string, Record>, bySession: map<string, seq<string>>, record: Record, s: string)
    requires Valid(byId) && record.artifactId !in byId.entries
    requires Bucket(bySession, s) == Filter(InSession(byId.entries, s), byId.order)
    ensures var byId' := Put(byId, record.artifactId, record);
            Bucket(WithId(bySession, record.sessionId, record.artifactId), s)
            == Filter(InSession(byId'.entries, s), byId'.order)
  {
    hide Filter;
    var byId' := Put(byId, record.artifactId, record);
    assert forall k | k in byId.order :: k in (set x | x in byId.order);
    FilterAgree(InSession(byId'.entries, s), InSession(byId.entries, s), byId.order);
    FilterSnoc(InSession(byId'.entries, s), byId.order, record.artifactId);
  }

  lemma AddedTwice(byId: Dict<string, Record>, bySession: map<string, seq<string>>, record: Record)
    requires Agrees(byId, bySession) && record.artifactId in byId.entries
    ensures !Agrees(Put(byId, record.artifactId, record), WithId(bySession, record.sessionId, record.artifactId))
  {
    var id := record.artifactId;
    var byId', bySession' := Put(byId, id, record), WithId(bySession, record.sessionId, id);
    var before := byId.entries[id].sessionId;
    if before == record.sessionId {
      FilterAgree(InSession(byId'.entries, before), InSession(byId.entries, before), byId.order);
    } else {
      assert id in (set x | x in byId.order);
      assert id in Bucket(bySession, before);
    }
    assert Bucket(bySession', before) != Filter(InSession(byId'.entries, before), byId'.order);
  }

  lemma AgreesAfterUpdate(byId: Dict<string, Record>, bySession: map<string, seq<string>>, record: Record)
    requires Agrees(byId, bySession) && record.artifactId in byId.entries
    ensures Agrees(Put(byId, record.artifactId, record), bySession)
            <==> record.sessionId == byId.entries[record.artifactId].sessionId
  {
    var id := record.artifactId;
    var byId' := Put(byId, id, record);
    var before := byId.entries[id].sessionId;
    if record.sessionId == before {
      forall s ensures Bucket(bySession, s) == Filter(InSession(byId'.entries, s), byId'.order) {
        FilterAgree(InSession(byId'.entries, s), InSession(byId.entries, s), byId.order);
      }
    } else {
      assert id in (set x | x in byId.order);
      assert id in Bucket(bySession, before);
      assert id !in Filter(InSession(byId'.entries, before), byId'.order);
    }
  }

  function WithoutId(bySession: map<string, seq<string>>, session: string, id: string): map<string, seq<string>> {
    var rest := Filter(Other(id), Bucket(bySession, session));
    if rest == [] then bySession - {session} else bySession[session := rest]
  }

  lemma AgreesAfterRemove(byId: Dict<string, Record>, bySession: map<string, seq<string>>, id: string)
    requires Agrees(byId, bySession) && id in byId.entries
    ensures Agrees(Pop(byId, id), WithoutId(bySession, byId.entries[id].sessionId, id))
  {
    forall s { BucketAfterRemove(byId, bySession, id, s); }
  }

  lemma BucketAfterRemove(byId: Dict<string, Record>, bySession: map<string, seq<string>>, id: string, s: string)
    requires Valid(byId) && id in byId.entries
    requires Bucket(bySession, s) == Filter(InSession(byId.entries, s), byId.order)
    ensures Bucket(WithoutId(bySession, byId.entries[id].sessionId, id), s)
            == Filter(InSession(Pop(byId, id).entries, s), Pop(byId, id).order)
  {
    hide Filter;
    var inRest := InSession(Pop(byId, id).entries, s);
    FilterTwice(Other(id), inRest, inRest, byId.order);
    FilterTwice(InSession(byId.entries, s), Other(id), inRest, byId.order);
    if s != byId.entries[id].sessionId {
      FilterAll(Other(id), Bucket(bySession, s));
    }
  }

  /** Selecting a bucket is filtering all records by the session. */
  lemma BucketHoldsSession(byId: Dict<string, Record>, bySession: map<string, seq<string>>, session: string)
    requires Agrees(byId, bySession)
    ensures var present := Filter(InSession(byId.entries, session), Bucket(bySession, session));
            Select(present, byId.entries) == Filter(Wanting(Some(session), None, map[]), Values(byId))
  {
    hide Filter;
    FilterAll(InSession(byId.entries, session), Bucket(bySession, session));
    assert forall k | k in byId.order :: k in (set x | x in byId.order);
    SelectFilter(byId.order, byId.entries, InSession(byId.entries, session), Wanting(Some(session), None, map[]));
  }

  lemma NothingToRemove(byId: Dict<string, Record>, bySession: map<string, seq<string>>, id: string)
    requires Agrees(byId, bySession) && id !in byId.entries
    ensures Pop(byId, id) == byId
  {
    PopAbsent(byId, id);
  }

  class ArtifactIndex {
    var byId: Dict<string, Record>
    var bySession: map<string, seq<string>>

    ghost predicate Invariant()
      reads this
    {
      Agrees(byId, bySession)
    }

    constructor ()
      ensures Invariant() && byId == Empty()
    {
      byId, bySession := Empty(), map[];
    }

    /** Keeps the agreement exactly when the id is fresh. */
    method Add(record: Record)
      modifies this
      ensures byId == Put(old(byId), record.artifactId, record)
      ensures old(Invariant()) ==> (Invariant() <==> record.artifactId !in old(byId).entries)
    {
      if Agrees(byId, bySession) {
        AgreesAfterAdd(byId, bySession, record);
      }
      byId := Put(byId, record.artifactId, record);
      bySession := WithId(bySession, record.sessionId, record.artifactId);
    }

    function All(): seq<Record>
      requires Valid(byId)
      reads this
    {
      Values(byId)
    }

    method Remove(id: string)
      requires Invariant()
      modifies this
      ensures Invariant() && byId == Pop(old(byId), id)
    {
      hide Agrees, Pop, Filter;
      if id !in byId.entries {
        NothingToRemove(byId, bySession, id);
        return;
      }
      AgreesAfterRemove(byId, bySession, id);
      var session := byId.entries[id].sessionId;
      byId := Pop(byId, id);
      bySession := bySession[session := Filter(Other(id), Bucket(bySession, session))];
      if bySession[session] == [] {
        bySession := bySession - {session};
      }
      assert bySession == WithoutId(old(bySession), session, id);
    }

    /** Keeps the agreement exactly when the session stays the same. */
    method Update(record: Record) returns (r: Result<()>)
      modifies this`byId
      ensures r.Ok? <==> record.artifactId in old(byId).entries
      ensures byId == if r.Ok? then Put(old(byId), record.artifactId, record) else old(byId)
      ensures r.Ok? && old(Invariant()) ==>
                (Invariant() <==> record.sessionId == old(byId).entries[record.artifactId].sessionId)
    {
      if record.artifactId !in byId.entries {
        return Raised("KeyError");
      }
      if Agrees(byId, bySession) {
        AgreesAfterUpdate(byId, bySession, record);
      }
      byId := Put(byId, record.artifactId, record);
      r := Ok(());
    }

    /** A lookup through the buckets finds what a scan of all records finds, in the same order. */
    method Lookup(session: Option<string>, artifactType: Option<ArtifactType>, filters: map<string, string>)
      returns (records: seq<Record>)
      requires Invariant()
      ensures records == Filter(Wanting(session, artifactType, filters), All())
      // Found are exactly the records that have the session, the type and the metadata asked for.
      ensures forall r :: r in records <==>
                && r in All()
                && (session.Some? ==> r.sessionId == session.value)
                && (artifactType.Some? ==> r.artifactType == artifactType.value)
                && forall k | k in filters :: k in r.metadata && r.metadata[k] == filters[k]
    {
      hide Filter;
      if session.None? {
        records := All();
        FilterAll(Wanting(None, None, map[]), records);
      } else {
        BucketHoldsSession(byId, bySession, session.value);
        var ids := Bucket(bySession, session.value);
        var present := Filter(InSession(byId.entries, session.value), ids);
        records := Select(present, byId.entries);
      }
      if artifactType.Some? {
        FilterTwice(Wanting(session, None, map[]), OfType(artifactType.value), Wanting(session, artifactType, map[]), All());
        records := Filter(OfType(artifactType.value), records);
      }
      FilterTwice(Wanting(session, artifactType, map[]), WithMetadata(filters), Wanting(session, artifactType, filters), All());
      records := Filter(WithMetadata(filters), records);
    }
  }
}
