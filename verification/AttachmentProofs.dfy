// What the attachment store keeps over every run of reads and outside events.

module AttachmentProofs {
  import opened AttachmentReads

  // A source whose content can be fetched at this time.
  predicate Fetchable(rt: Runtime, source: Source, now: int)
  {
    && (source.declaredSize.Some? ==> source.declaredSize.value <= rt.maxBytes)
    && source.hasUrl && source.expiresAt.Some? && now < source.expiresAt.value
  }

  // ------------------------------------------------------------------- time

  // When an event may happen, given the clock after the one before it.
  predicate OnTime(clock: int, event: Event)
  {
    match event
    case AttachmentRead(call) => clock <= call.now <= call.later
    case BlobTombstoned(_, at) => clock <= at
    case _ => true
  }

  function After(clock: int, event: Event): int
  {
    match event
    case AttachmentRead(call) => call.later
    case BlobTombstoned(_, at) => at
    case _ => clock
  }

  function ClockAfter(clock: int, events: seq<Event>): int
  {
    if events == [] then clock else After(ClockAfter(clock, events[..|events| - 1]), events[|events| - 1])
  }

  predicate Timely(clock: int, events: seq<Event>)
  {
    events == [] ||
    (Timely(clock, events[..|events| - 1]) && OnTime(ClockAfter(clock, events[..|events| - 1]), events[|events| - 1]))
  }

  // -------------------------------------------------------------- invariant

  ghost predicate CollisionFree(rt: Runtime)
  {
    forall c, d :: rt.hash(c) == rt.hash(d) ==> c == d
  }

  // One blob per content hash; its key and its size are those of its content.
  predicate BlobsOk(blobs: seq<Blob>, clock: int)
  {
    (forall i, j :: 0 <= i < j < |blobs| ==> blobs[i].hash != blobs[j].hash) &&
    (forall i :: 0 <= i < |blobs| ==> blobs[i].storageKey == StorageKey(blobs[i].hash) && blobs[i].updatedAt <= clock)
  }

  ghost predicate SizeOk(rt: Runtime, blob: Blob)
  {
    forall c :: rt.hash(c) == blob.hash ==> blob.size == |c|
  }

  ghost predicate SizesOk(rt: Runtime, blobs: seq<Blob>)
  {
    forall i :: 0 <= i < |blobs| ==> SizeOk(rt, blobs[i])
  }

  // Every file lies under the key of its own hash.
  ghost predicate FilesOk(rt: Runtime, files: map<string, Bytes>)
  {
    forall key :: key in files ==> key == StorageKey(rt.hash(files[key]))
  }

  predicate SourcesOk(sources: map<SourceKey, Source>, blobs: seq<Blob>)
  {
    forall key :: key in sources && sources[key].blob.Some? ==> sources[key].blob.value < |blobs|
  }

  predicate FreshRow(e: Extraction, blobs: seq<Blob>)
  {
    e.blob < |blobs| && Fresh(e, e.blob, blobs[e.blob].updatedAt, e.modality)
  }

  // At most one fresh succeeded extraction per blob and modality.
  predicate ExtractionsOk(es: seq<Extraction>, blobs: seq<Blob>)
  {
    (forall i :: 0 <= i < |es| ==> es[i].blob < |blobs|) &&
    (forall i, j :: 0 <= i < j < |es| && FreshRow(es[i], blobs) && FreshRow(es[j], blobs) ==>
                      es[i].blob != es[j].blob || es[i].modality != es[j].modality)
  }

  predicate TimesOk(es: seq<Extraction>, clock: int)
  {
    forall i :: 0 <= i < |es| ==> es[i].createdAt <= clock
  }

  ghost predicate Healthy(rt: Runtime, db: Db, clock: int)
  {
    BlobsOk(db.blobs, clock) && SizesOk(rt, db.blobs) && FilesOk(rt, db.files) &&
    SourcesOk(db.sources, db.blobs) && ExtractionsOk(db.extractions, db.blobs) && TimesOk(db.extractions, clock)
  }

  lemma StorageKeyInjective(h: string, k: string)
    requires StorageKey(h) == StorageKey(k)
    ensures h == k
  {
    var a, b := StorageKey(h), StorageKey(k);
    assert a[|a| - |h|..] == h;
    assert b[|b| - |k|..] == k;
  }

  // The file of a blob is the blob's content.
  lemma FileOfBlob(rt: Runtime, db: Db, clock: int, id: nat)
    requires Healthy(rt, db, clock) && id < |db.blobs| && db.blobs[id].storageKey in db.files
    ensures rt.hash(db.files[db.blobs[id].storageKey]) == db.blobs[id].hash
    ensures |db.files[db.blobs[id].storageKey]| == db.blobs[id].size
  {
    StorageKeyInjective(db.blobs[id].hash, rt.hash(db.files[db.blobs[id].storageKey]));
    assert SizeOk(rt, db.blobs[id]);
  }

  // A blob table may gain rows and may move a row's update time forward.
  predicate Ages(blobs: seq<Blob>, blobs': seq<Blob>)
  {
    |blobs| <= |blobs'| &&
    forall i :: 0 <= i < |blobs| ==> blobs'[i].hash == blobs[i].hash && blobs[i].updatedAt <= blobs'[i].updatedAt
  }

  lemma ExtractionsSurviveAging(es: seq<Extraction>, blobs: seq<Blob>, blobs': seq<Blob>)
    requires ExtractionsOk(es, blobs) && Ages(blobs, blobs')
    ensures ExtractionsOk(es, blobs')
  {
    forall i, j | 0 <= i < j < |es| && FreshRow(es[i], blobs') && FreshRow(es[j], blobs')
      ensures es[i].blob != es[j].blob || es[i].modality != es[j].modality
    {
      assert FreshRow(es[i], blobs) && FreshRow(es[j], blobs);
    }
  }

  // The row a content is put under.
  lemma StoredRow(rt: Runtime, db: Db, content: Bytes, mime: string, clock: int, now: int)
    requires BlobsOk(db.blobs, clock) && clock <= now
    ensures var (after, id) := StoreContent(rt, db, content, mime, now);
            BlobsOk(after.blobs, now) && Ages(db.blobs, after.blobs) &&
            after.blobs[id].hash == rt.hash(content) && after.blobs[id].deletedAt.None? &&
            after.blobs[id].storageKey in after.files
  {
  }

  lemma SameContent(rt: Runtime, content: Bytes)
    requires CollisionFree(rt)
    ensures forall c :: rt.hash(c) == rt.hash(content) ==> c == content
  {
  }

  lemma StoredSize(rt: Runtime, db: Db, content: Bytes, mime: string, now: int)
    requires CollisionFree(rt) && SizesOk(rt, db.blobs)
    ensures SizesOk(rt, StoreContent(rt, db, content, mime, now).0.blobs)
  {
    hide CollisionFree, SizeOk;
    forall blob: Blob | blob.hash == rt.hash(content) && blob.size == |content|
      ensures SizeOk(rt, blob)
    {
      IsOfSize(rt, blob, content);
    }
  }

  lemma IsOfSize(rt: Runtime, blob: Blob, content: Bytes)
    requires CollisionFree(rt) && blob.hash == rt.hash(content) && blob.size == |content|
    ensures SizeOk(rt, blob)
  {
    hide CollisionFree;
    SameContent(rt, content);
  }

  lemma StoredFile(rt: Runtime, db: Db, content: Bytes, mime: string, clock: int, now: int)
    requires CollisionFree(rt) && BlobsOk(db.blobs, clock) && FilesOk(rt, db.files)
    requires StoreContent(rt, db, content, mime, now).0.blobs[StoreContent(rt, db, content, mime, now).1].storageKey
             in StoreContent(rt, db, content, mime, now).0.files
    ensures var (after, id) := StoreContent(rt, db, content, mime, now);
            FilesOk(rt, after.files) && after.files[after.blobs[id].storageKey] == content
  {
    var (after, id) := StoreContent(rt, db, content, mime, now);
    var key := after.blobs[id].storageKey;
    assert key == StorageKey(rt.hash(content));
    assert FilesOk(rt, after.files);
    StorageKeyInjective(rt.hash(content), rt.hash(after.files[key]));
  }

  lemma StoreKeepsHealthy(rt: Runtime, db: Db, content: Bytes, mime: string, clock: int, now: int)
    requires CollisionFree(rt) && Healthy(rt, db, clock) && clock <= now
    ensures Healthy(rt, StoreContent(rt, db, content, mime, now).0, now)
    ensures Ages(db.blobs, StoreContent(rt, db, content, mime, now).0.blobs)
    ensures var (after, id) := StoreContent(rt, db, content, mime, now);
            after.blobs[id].hash == rt.hash(content) && after.blobs[id].deletedAt.None? &&
            after.blobs[id].storageKey in after.files && after.files[after.blobs[id].storageKey] == content &&
            after.sources == db.sources && after.extractions == db.extractions
  {
    hide BlobsOk, SizesOk, FilesOk, ExtractionsOk, CollisionFree;
    StoredRow(rt, db, content, mime, clock, now);
    StoredSize(rt, db, content, mime, now);
    StoredFile(rt, db, content, mime, clock, now);
    ExtractionsSurviveAging(db.extractions, db.blobs, StoreContent(rt, db, content, mime, now).0.blobs);
  }

  lemma LinkKeepsHealthy(rt: Runtime, db: Db, source: Source, content: Bytes, mime: string, clock: int, call: Call)
    requires CollisionFree(rt) && Healthy(rt, db, clock) && clock <= call.now
    ensures var (linked, id) := LinkContent(rt, db, source, content, mime, call);
            Healthy(rt, linked, call.now) && Ages(db.blobs, linked.blobs) && linked.extractions == db.extractions &&
            linked.blobs[id].hash == rt.hash(content) && linked.blobs[id].deletedAt.None? &&
            linked.blobs[id].storageKey in linked.files && linked.files[linked.blobs[id].storageKey] == content
  {
    hide BlobsOk, SizesOk, FilesOk, ExtractionsOk, StoreContent, CollisionFree;
    StoreKeepsHealthy(rt, db, content, mime, clock, call.now);
    var kept := StoreContent(rt, db, content, mime, call.now).0;
    assert SourcesOk(kept.sources, kept.blobs);
  }

  lemma HealthyLater(rt: Runtime, db: Db, clock: int, now: int)
    requires Healthy(rt, db, clock) && clock <= now
    ensures Healthy(rt, db, now)
  {
  }

  // A new row does not repeat a fresh one.
  lemma NewExtraction(es: seq<Extraction>, blobs: seq<Blob>, e: Extraction)
    requires ExtractionsOk(es, blobs) && e.blob < |blobs|
    requires FindFresh(es, e.blob, blobs[e.blob].updatedAt, e.modality).None?
    ensures ExtractionsOk(es + [e], blobs)
  {
    var es' := es + [e];
    forall i, j | 0 <= i < j < |es'| && FreshRow(es'[i], blobs) && FreshRow(es'[j], blobs)
      ensures es'[i].blob != es'[j].blob || es'[i].modality != es'[j].modality
    {
      assert es'[i] == es[i];
      assert !Fresh(es[i], e.blob, blobs[e.blob].updatedAt, e.modality);
    }
  }

  lemma ExtractKeepsHealthy(
    rt: Runtime, db: Db, id: nat, content: Bytes, modality: Modality, call: Call, downloaded: bool)
    requires Healthy(rt, db, call.now) && id < |db.blobs| && call.now <= call.later
    ensures Healthy(rt, Extract(db, id, content, modality, call, downloaded).0, call.later)
  {
    HealthyLater(rt, db, call.now, call.later);
    hide BlobsOk, SizesOk, FilesOk, SourcesOk, ExtractionsOk;
    if FindFresh(db.extractions, id, db.blobs[id].updatedAt, modality).None? {
      var after := Extract(db, id, content, modality, call, downloaded).0;
      NewExtraction(db.extractions, db.blobs, after.extractions[|db.extractions|]);
    }
  }

  lemma DownloadKeepsHealthy(rt: Runtime, db: Db, clock: int, source: Source, content: Bytes, call: Call)
    requires CollisionFree(rt) && Healthy(rt, db, clock) && clock <= call.now <= call.later
    ensures Healthy(rt, ReadDownloaded(rt, db, source, content, call).0, call.later)
  {
    hide Healthy, CollisionFree, LinkContent, Extract, Ages, ModalityOf;
    HealthyLater(rt, db, clock, call.later);
    var mime := rt.sniff(content, source.declaredType, source.filename);
    LinkKeepsHealthy(rt, db, source, content, mime, clock, call);
    var (linked, id) := LinkContent(rt, db, source, content, mime, call);
    ExtractKeepsHealthy(rt, linked, id, content, ModalityOf(mime), call, true);
  }

  lemma ReadKeepsHealthy(rt: Runtime, db: Db, clock: int, call: Call)
    requires CollisionFree(rt) && Healthy(rt, db, clock) && clock <= call.now <= call.later
    ensures Healthy(rt, Read(rt, db, call).0, call.later)
  {
    hide Healthy, CollisionFree, ReadDownloaded, Extract, ModalityOf;
    HealthyLater(rt, db, clock, call.later);
    HealthyLater(rt, db, clock, call.now);
    if call.key in db.sources {
      var source := db.sources[call.key];
      var stored := StoredBlob(db, source);
      if stored.Some? {
        var content := db.files[db.blobs[stored.value].storageKey];
        var modality := ModalityOf(rt.sniff(content, source.declaredType, source.filename));
        ExtractKeepsHealthy(rt, db, stored.value, content, modality, call, false);
      } else if call.download.Downloaded? {
        DownloadKeepsHealthy(rt, db, clock, source, call.download.content, call);
      }
    }
  }

  lemma TombstoneKeepsHealthy(rt: Runtime, db: Db, clock: int, id: nat, at: int)
    requires Healthy(rt, db, clock) && clock <= at && id < |db.blobs|
    ensures Healthy(rt, Apply(rt, db, BlobTombstoned(id, at)), at)
  {
    hide FilesOk, ExtractionsOk;
    ExtractionsSurviveAging(db.extractions, db.blobs, Apply(rt, db, BlobTombstoned(id, at)).blobs);
  }

  lemma ApplyKeepsHealthy(rt: Runtime, db: Db, clock: int, event: Event)
    requires CollisionFree(rt) && Healthy(rt, db, clock) && OnTime(clock, event)
    ensures Healthy(rt, Apply(rt, db, event), After(clock, event))
  {
    hide CollisionFree, BlobsOk, SizesOk, ExtractionsOk, Read;
    match event {
      case AttachmentRead(call) => ReadKeepsHealthy(rt, db, clock, call);
      case BlobTombstoned(id, at) =>
        HealthyLater(rt, db, clock, at);
        if id < |db.blobs| {
          TombstoneKeepsHealthy(rt, db, clock, id, at);
        }
      case _ =>
    }
  }

  lemma {:induction false} RunKeepsHealthy(rt: Runtime, db: Db, clock: int, events: seq<Event>)
    requires CollisionFree(rt) && Healthy(rt, db, clock) && Timely(clock, events)
    ensures Healthy(rt, Run(rt, db, events), ClockAfter(clock, events))
  {
    if events != [] {
      var before := events[..|events| - 1];
      RunKeepsHealthy(rt, db, clock, before);
      ApplyKeepsHealthy(rt, Run(rt, db, before), ClockAfter(clock, before), events[|events| - 1]);
    }
  }

  const NOTHING := Db(map[], [], map[], [])

  // Tables that some run from empty ones leads to, and the clock then.
  ghost predicate Reached(rt: Runtime, db: Db, now: int)
  {
    exists clock, events :: Timely(clock, events) && db == Run(rt, NOTHING, events) && now == ClockAfter(clock, events)
  }

  lemma ReachedIsHealthy(rt: Runtime, db: Db, now: int)
    requires CollisionFree(rt) && Reached(rt, db, now)
    ensures Healthy(rt, db, now)
  {
    var clock, events :| Timely(clock, events) && db == Run(rt, NOTHING, events) && now == ClockAfter(clock, events);
    RunKeepsHealthy(rt, NOTHING, clock, events);
  }

  // One blob per content hash, files that are what their blobs say, and at most
  // one fresh extraction per blob and modality.
  lemma StoreIsContentAddressed(rt: Runtime, db: Db, now: int)
    requires CollisionFree(rt) && Reached(rt, db, now)
    ensures forall i, j :: 0 <= i < j < |db.blobs| ==> db.blobs[i].hash != db.blobs[j].hash
    ensures forall i :: 0 <= i < |db.blobs| && db.blobs[i].storageKey in db.files ==>
                          && rt.hash(db.files[db.blobs[i].storageKey]) == db.blobs[i].hash
                          && |db.files[db.blobs[i].storageKey]| == db.blobs[i].size
    ensures forall i, j :: 0 <= i < j < |db.extractions| && FreshRow(db.extractions[i], db.blobs)
                           && FreshRow(db.extractions[j], db.blobs) ==>
                             || db.extractions[i].blob != db.extractions[j].blob
                             || db.extractions[i].modality != db.extractions[j].modality
  {
    ReachedIsHealthy(rt, db, now);
    forall i | 0 <= i < |db.blobs| && db.blobs[i].storageKey in db.files
      ensures rt.hash(db.files[db.blobs[i].storageKey]) == db.blobs[i].hash &&
              |db.files[db.blobs[i].storageKey]| == db.blobs[i].size
    {
      FileOfBlob(rt, db, now, i);
    }
  }
}
