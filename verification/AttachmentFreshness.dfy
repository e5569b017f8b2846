// Where extracted blocks come from, and when a cached read is what a fresh one
// would be.

module AttachmentFreshness {
  import opened Options
  import opened AttachmentReads
  import opened AttachmentProofs

  // The runtime takes this content in, and some source reads it in this modality.
  ghost predicate Admits(rt: Runtime, content: Bytes, modality: Modality)
  {
    && modality != UnknownModality && !rt.failClosed && !rt.isUnsafe(content)
    && exists declaredType, filename :: ModalityOf(rt.sniff(content, declaredType, filename)) == modality
  }

  // Some extractor of `exts` made these blocks of this content.
  ghost predicate Origin(rt: Runtime, exts: iset<Extractor>, modality: Modality, content: Bytes, blocks: seq<string>)
  {
    Admits(rt, content, modality) && exists x :: x in exts && x(content, modality) == ExtractedBlocks(blocks)
  }

  ghost predicate RowGenuine(rt: Runtime, exts: iset<Extractor>, e: Extraction, blobs: seq<Blob>)
  {
    forall c :: e.succeeded && e.blob < |blobs| && rt.hash(c) == blobs[e.blob].hash ==>
      Origin(rt, exts, e.modality, c, e.blocks)
  }

  ghost predicate RowsGenuine(rt: Runtime, exts: iset<Extractor>, es: seq<Extraction>, blobs: seq<Blob>)
  {
    forall i :: 0 <= i < |es| ==> RowGenuine(rt, exts, es[i], blobs)
  }

  predicate FilesAdmitted(rt: Runtime, files: map<string, Bytes>)
  {
    forall key :: key in files ==> !rt.failClosed && !rt.isUnsafe(files[key])
  }

  ghost predicate Genuine(rt: Runtime, exts: iset<Extractor>, db: Db)
  {
    RowsGenuine(rt, exts, db.extractions, db.blobs) && FilesAdmitted(rt, db.files)
  }

  // What a successful outcome says of a content.
  ghost predicate Describes(rt: Runtime, exts: iset<Extractor>, outcome: Outcome, content: Bytes)
  {
    && outcome.ReadOk? && outcome.hash == rt.hash(content) && outcome.size == |content|
    && Origin(rt, exts, outcome.modality, content, outcome.blocks)
  }

  // ------------------------------------------------------------ one extraction

  // What is cached for a content was extracted from it.
  lemma CachedIsGenuine(
    rt: Runtime, exts: iset<Extractor>, es: seq<Extraction>, blobs: seq<Blob>,
    id: nat, content: Bytes, modality: Modality)
    requires RowsGenuine(rt, exts, es, blobs) && id < |blobs| && blobs[id].hash == rt.hash(content)
    ensures var cached := FindFresh(es, id, blobs[id].updatedAt, modality);
            cached.Some? ==> Origin(rt, exts, modality, content, cached.value.blocks)
  {
    hide Origin;
    var cached := FindFresh(es, id, blobs[id].updatedAt, modality);
    if cached.Some? {
      var i :| 0 <= i < |es| && es[i] == cached.value;
      assert RowGenuine(rt, exts, es[i], blobs);
    }
  }

  lemma StoredSizeOf(rt: Runtime, db: Db, clock: int, id: nat, content: Bytes)
    requires Healthy(rt, db, clock) && id < |db.blobs| && db.blobs[id].hash == rt.hash(content)
    ensures db.blobs[id].size == |content|
  {
    assert SizeOk(rt, db.blobs[id]);
  }

  lemma NewRowGenuine(rt: Runtime, exts: iset<Extractor>, e: Extraction, blobs: seq<Blob>, content: Bytes)
    requires CollisionFree(rt) && e.blob < |blobs| && blobs[e.blob].hash == rt.hash(content)
    requires e.succeeded ==> Origin(rt, exts, e.modality, content, e.blocks)
    ensures RowGenuine(rt, exts, e, blobs)
  {
    hide CollisionFree, Origin;
    SameContent(rt, content);
  }

  lemma GenuineSnoc(rt: Runtime, exts: iset<Extractor>, es: seq<Extraction>, e: Extraction, blobs: seq<Blob>)
    requires RowsGenuine(rt, exts, es, blobs) && RowGenuine(rt, exts, e, blobs)
    ensures RowsGenuine(rt, exts, es + [e], blobs)
  {
    hide RowGenuine;
  }

  // Blob rows never change their hash, so rows stay genuine as the table changes.
  lemma GenuineSurvives(rt: Runtime, exts: iset<Extractor>, db: Db, clock: int, blobs: seq<Blob>)
    requires RowsGenuine(rt, exts, db.extractions, db.blobs) && Healthy(rt, db, clock) && Ages(db.blobs, blobs)
    ensures RowsGenuine(rt, exts, db.extractions, blobs)
  {
    hide Origin;
    assert ExtractionsOk(db.extractions, db.blobs);
    hide Healthy;
    forall i | 0 <= i < |db.extractions|
      ensures RowGenuine(rt, exts, db.extractions[i], blobs)
    {
      assert RowGenuine(rt, exts, db.extractions[i], db.blobs);
    }
  }

  lemma ExtractIsGenuine(
    rt: Runtime, exts: iset<Extractor>, db: Db,
    id: nat, content: Bytes, modality: Modality, call: Call, downloaded: bool)
    requires CollisionFree(rt) && Healthy(rt, db, call.now) && id < |db.blobs| && db.blobs[id].hash == rt.hash(content)
    requires RowsGenuine(rt, exts, db.extractions, db.blobs) && call.extract in exts && Admits(rt, content, modality)
    ensures var (after, reading) := Extract(db, id, content, modality, call, downloaded);
            && RowsGenuine(rt, exts, after.extractions, after.blobs) && after.files == db.files
            && reading.downloaded == downloaded
            && (reading.outcome.ReadOk? ==>
                  Describes(rt, exts, reading.outcome, content) && reading.outcome.modality == modality)
  {
    hide CollisionFree, Healthy, RowsGenuine, RowGenuine, FindFresh, Admits;
    StoredSizeOf(rt, db, call.now, id, content);
    CachedIsGenuine(rt, exts, db.extractions, db.blobs, id, content, modality);
    var after := Extract(db, id, content, modality, call, downloaded).0;
    if after != db {
      var e := after.extractions[|db.extractions|];
      assert e.succeeded ==> call.extract(content, modality) == ExtractedBlocks(e.blocks);
      NewRowGenuine(rt, exts, e, db.blobs, content);
      GenuineSnoc(rt, exts, db.extractions, e, db.blobs);
    }
  }

  // -------------------------------------------------------------------- one read

  // The content a read is about: the source's file, or else the download.
  function ContentOf(db: Db, call: Call): Option<Bytes>
  {
    if call.key !in db.sources then None
    else
      match StoredBlob(db, db.sources[call.key])
      case Some(id) => Some(db.files[db.blobs[id].storageKey])
      case None => if call.download.Downloaded? then Some(call.download.content) else None
  }

  lemma LinkAdmits(rt: Runtime, db: Db, source: Source, content: Bytes, mime: string, call: Call)
    requires FilesAdmitted(rt, db.files) && !rt.failClosed && !rt.isUnsafe(content)
    ensures FilesAdmitted(rt, LinkContent(rt, db, source, content, mime, call).0.files)
  {
  }

  lemma LinkIsGenuine(
    rt: Runtime, exts: iset<Extractor>, db: Db, source: Source, content: Bytes, mime: string, clock: int, call: Call)
    requires CollisionFree(rt) && Healthy(rt, db, clock) && clock <= call.now && Genuine(rt, exts, db)
    requires !rt.failClosed && !rt.isUnsafe(content)
    ensures Genuine(rt, exts, LinkContent(rt, db, source, content, mime, call).0)
  {
    hide Healthy, CollisionFree, RowsGenuine, Ages, FilesAdmitted, LinkContent;
    LinkKeepsHealthy(rt, db, source, content, mime, clock, call);
    LinkAdmits(rt, db, source, content, mime, call);
    GenuineSurvives(rt, exts, db, clock, LinkContent(rt, db, source, content, mime, call).0.blobs);
  }

  lemma DownloadIsGenuine(
    rt: Runtime, exts: iset<Extractor>, db: Db, source: Source, content: Bytes, clock: int, call: Call)
    requires CollisionFree(rt) && Healthy(rt, db, clock) && clock <= call.now <= call.later
    requires Genuine(rt, exts, db) && call.extract in exts
    ensures var (after, reading) := ReadDownloaded(rt, db, source, content, call);
            && Genuine(rt, exts, after)
            && (reading.outcome.ReadOk? ==> reading.downloaded && Describes(rt, exts, reading.outcome, content))
  {
    hide Healthy, CollisionFree, LinkContent, Extract, Ages, ModalityOf, RowsGenuine, FilesAdmitted, Describes;
    var mime := rt.sniff(content, source.declaredType, source.filename);
    if ModalityOf(mime) != UnknownModality && !rt.isUnsafe(content) && !rt.failClosed {
      LinkKeepsHealthy(rt, db, source, content, mime, clock, call);
      LinkIsGenuine(rt, exts, db, source, content, mime, clock, call);
      var (linked, id) := LinkContent(rt, db, source, content, mime, call);
      assert Admits(rt, content, ModalityOf(mime));
      ExtractIsGenuine(rt, exts, linked, id, content, ModalityOf(mime), call, true);
    }
  }

  lemma StoredIsGenuine(rt: Runtime, exts: iset<Extractor>, db: Db, source: Source, id: nat, clock: int, call: Call)
    requires CollisionFree(rt) && Healthy(rt, db, clock) && clock <= call.now <= call.later
    requires Genuine(rt, exts, db) && call.extract in exts && StoredBlob(db, source) == Some(id)
    ensures var (after, reading) := ReadStored(rt, db, source, id, call);
            && Genuine(rt, exts, after)
            && (reading.outcome.ReadOk? ==>
                  !reading.downloaded && Describes(rt, exts, reading.outcome, db.files[db.blobs[id].storageKey]))
  {
    var content := db.files[db.blobs[id].storageKey];
    var modality := ModalityOf(rt.sniff(content, source.declaredType, source.filename));
    FileOfBlob(rt, db, clock, id);
    HealthyLater(rt, db, clock, call.now);
    hide Healthy, CollisionFree, Extract, ModalityOf, RowsGenuine, Describes;
    if modality != UnknownModality {
      assert Admits(rt, content, modality);
      ExtractIsGenuine(rt, exts, db, id, content, modality, call, false);
    }
  }

  // A successful reading is about its content: hash, size, and blocks that some
  // call extracted from it.
  ghost predicate IsGenuine(rt: Runtime, exts: iset<Extractor>, db: Db, call: Call, reading: Reading)
  {
    reading.outcome.ReadOk? ==>
      && ContentOf(db, call).Some? && Describes(rt, exts, reading.outcome, ContentOf(db, call).value)
      && (reading.downloaded <==> StoredBlob(db, db.sources[call.key]).None?)
  }

  lemma ReadIsGenuine(rt: Runtime, exts: iset<Extractor>, db: Db, clock: int, call: Call)
    requires CollisionFree(rt) && Healthy(rt, db, clock) && clock <= call.now <= call.later
    requires Genuine(rt, exts, db) && call.extract in exts
    ensures Genuine(rt, exts, Read(rt, db, call).0) && IsGenuine(rt, exts, db, call, Read(rt, db, call).1)
  {
    hide Healthy, CollisionFree, Genuine, Describes, ReadStored, ReadDownloaded;
    if call.key in db.sources {
      var source := db.sources[call.key];
      var stored := StoredBlob(db, source);
      if stored.Some? {
        StoredIsGenuine(rt, exts, db, source, stored.value, clock, call);
      } else if call.download.Downloaded? {
        DownloadIsGenuine(rt, exts, db, source, call.download.content, clock, call);
      }
    }
  }

  // -------------------------------------------------------------------- all runs

  ghost predicate AllFrom(exts: iset<Extractor>, events: seq<Event>)
  {
    forall i :: 0 <= i < |events| && events[i].AttachmentRead? ==> events[i].call.extract in exts
  }

  lemma {:induction false} RunIsGenuine(rt: Runtime, exts: iset<Extractor>, db: Db, clock: int, events: seq<Event>)
    requires CollisionFree(rt) && Healthy(rt, db, clock) && Timely(clock, events)
    requires Genuine(rt, exts, db) && AllFrom(exts, events)
    ensures Genuine(rt, exts, Run(rt, db, events))
  {
    if events != [] {
      hide Healthy, CollisionFree, Read, IsGenuine, RowsGenuine;
      var before, last := events[..|events| - 1], events[|events| - 1];
      RunIsGenuine(rt, exts, db, clock, before);
      RunKeepsHealthy(rt, db, clock, before);
      var db1, now := Run(rt, db, before), ClockAfter(clock, before);
      match last {
        case AttachmentRead(call) => ReadIsGenuine(rt, exts, db1, now, call);
        case BlobTombstoned(_, _) => GenuineSurvives(rt, exts, db1, now, Apply(rt, db1, last).blobs);
        case _ =>
      }
    }
  }

  // Tables of runs whose reads extract with `exts`.
  ghost predicate ReachedBy(rt: Runtime, exts: iset<Extractor>, db: Db, now: int)
  {
    exists clock, events ::
      && Timely(clock, events) && db == Run(rt, NOTHING, events) && now == ClockAfter(clock, events)
      && AllFrom(exts, events)
  }

  lemma ReachedByIsGenuine(rt: Runtime, exts: iset<Extractor>, db: Db, now: int)
    requires CollisionFree(rt) && ReachedBy(rt, exts, db, now)
    ensures Healthy(rt, db, now) && Genuine(rt, exts, db)
  {
    var clock, events :|
      && Timely(clock, events) && db == Run(rt, NOTHING, events) && now == ClockAfter(clock, events)
      && AllFrom(exts, events);
    RunKeepsHealthy(rt, NOTHING, clock, events);
    RunIsGenuine(rt, exts, NOTHING, clock, events);
  }

  // A call that may come next.
  ghost predicate MayCome(exts: iset<Extractor>, now: int, call: Call)
  {
    call.extract in exts && now <= call.now <= call.later
  }

  ghost predicate AnsweredGenuinely(rt: Runtime, exts: iset<Extractor>, db: Db, call: Call)
  {
    exists after, reading :: Read(rt, db, call) == (after, reading) && IsGenuine(rt, exts, db, call, reading)
  }

  // After any run, every successful reading reports the hash and the size of the
  // content it is about, and blocks some call of the run or this one extracted
  // from that content in that modality.
  lemma EveryReadIsGenuine(rt: Runtime, exts: iset<Extractor>, db: Db, now: int, call: Call)
    requires CollisionFree(rt) && ReachedBy(rt, exts, db, now) && MayCome(exts, now, call)
    ensures AnsweredGenuinely(rt, exts, db, call)
  {
    ReachedByIsGenuine(rt, exts, db, now);
    hide CollisionFree, Healthy, Genuine, ReachedBy, Read, IsGenuine;
    ReadIsGenuine(rt, exts, db, now, call);
    var (after, reading) := Read(rt, db, call);
  }

  ghost predicate ExtractsAs(x: Extractor, ext: Bytes -> Extracted, modality: Modality)
  {
    forall c :: x(c, modality) == ext(c)
  }

  // The extractors that read this modality from the content alone, as `ext` does.
  ghost function LikeOnly(ext: Bytes -> Extracted, modality: Modality): iset<Extractor>
  {
    iset x: Extractor | ExtractsAs(x, ext, modality)
  }

  // Then a successful reading in this modality reports what `ext` gives.
  ghost predicate AnsweredFreshly(rt: Runtime, ext: Bytes -> Extracted, modality: Modality, db: Db, call: Call)
  {
    var reading := Read(rt, db, call).1;
    var outcome := reading.outcome;
    outcome.ReadOk? && outcome.modality == modality ==>
      && ContentOf(db, call).Some? && (reading.downloaded <==> StoredBlob(db, db.sources[call.key]).None?)
      && var content := ContentOf(db, call).value;
         && outcome.hash == rt.hash(content) && outcome.size == |content|
         && ext(content) == ExtractedBlocks(outcome.blocks)
  }

  lemma EveryReadIsFresh(rt: Runtime, ext: Bytes -> Extracted, modality: Modality, db: Db, now: int, call: Call)
    requires CollisionFree(rt) && ReachedBy(rt, LikeOnly(ext, modality), db, now)
    requires MayCome(LikeOnly(ext, modality), now, call)
    ensures AnsweredFreshly(rt, ext, modality, db, call)
  {
    ReachedByIsGenuine(rt, LikeOnly(ext, modality), db, now);
    hide CollisionFree, Healthy, Genuine, ReachedBy, Read, Admits;
    ReadIsGenuine(rt, LikeOnly(ext, modality), db, now, call);
  }

  // ------------------------------------------------- when cached reads are fresh

  // If the read succeeds in this modality, its blocks are those that this very
  // call would extract from the content.
  ghost predicate FreshFor(rt: Runtime, modality: Modality, db: Db, call: Call)
  {
    var outcome := Read(rt, db, call).1.outcome;
    outcome.ReadOk? && outcome.modality == modality ==>
      && ContentOf(db, call).Some?
      && call.extract(ContentOf(db, call).value, modality) == ExtractedBlocks(outcome.blocks)
  }

  ghost predicate AlwaysFresh(rt: Runtime, exts: iset<Extractor>, modality: Modality)
  {
    forall db, now, call ::
      ReachedBy(rt, exts, db, now) && MayCome(exts, now, call) ==> FreshFor(rt, modality, db, call)
  }

  // On every content the runtime takes in, what one extractor can read in this
  // modality every other reads alike.
  ghost predicate Agreeing(rt: Runtime, exts: iset<Extractor>, modality: Modality)
  {
    forall x, y, c ::
      x in exts && y in exts && Admits(rt, c, modality) && x(c, modality).ExtractedBlocks? ==>
        y(c, modality) == x(c, modality)
  }

  // The cache is keyed by content and modality only, so reads are what a fresh
  // extraction would give exactly when the calls' extractors agree: with the
  // intent in the extraction, they need not.
  lemma FreshExactly(rt: Runtime, exts: iset<Extractor>, modality: Modality)
    requires CollisionFree(rt)
    ensures AlwaysFresh(rt, exts, modality) <==> Agreeing(rt, exts, modality)
  {
    if Agreeing(rt, exts, modality) {
      forall db, now, call | ReachedBy(rt, exts, db, now) && MayCome(exts, now, call)
        ensures FreshFor(rt, modality, db, call)
      {
        AgreeingIsFresh(rt, exts, modality, db, now, call);
      }
    } else {
      var x, y, c :|
        && x in exts && y in exts && Admits(rt, c, modality) && x(c, modality).ExtractedBlocks?
        && y(c, modality) != x(c, modality);
      DisagreeingIsStale(rt, exts, modality, x, y, c);
    }
  }

  lemma AgreeingIsFresh(rt: Runtime, exts: iset<Extractor>, modality: Modality, db: Db, now: int, call: Call)
    requires CollisionFree(rt) && Agreeing(rt, exts, modality) && ReachedBy(rt, exts, db, now)
    requires MayCome(exts, now, call)
    ensures FreshFor(rt, modality, db, call)
  {
    ReachedByIsGenuine(rt, exts, db, now);
    hide CollisionFree, Healthy, Genuine, ReachedBy, Read, Admits;
    ReadIsGenuine(rt, exts, db, now, call);
  }

  // Tables that hold one recorded source and nothing else.
  function OnlySource(key: SourceKey, source: Source): Db
  {
    Db(map[key := source.(blob := None)], [], map[], [])
  }

  // Whatever a second read would itself extract, it gets the first one's blocks.
  lemma CacheIgnoresIntent(rt: Runtime, source: Source, content: Bytes, blocks: seq<string>, first: Call, second: Call)
    requires !rt.failClosed && !rt.isUnsafe(content)
    requires Fetchable(rt, source, first.now) && first.now <= first.later && second.key == first.key
    requires first.decrypts && first.download == Downloaded(content)
    requires var m := ModalityOf(rt.sniff(content, source.declaredType, source.filename));
             m != UnknownModality && first.extract(content, m) == ExtractedBlocks(blocks)
    ensures var db := OnlySource(first.key, source);
            var mime := rt.sniff(content, source.declaredType, source.filename);
            var outcome := ReadOk(ModalityOf(mime), rt.hash(content), |content|, mime, blocks);
            && Read(rt, db, first).1.outcome == outcome
            && Read(rt, Read(rt, db, first).0, second).1 == Reading(outcome, false, false)
            && ContentOf(Read(rt, db, first).0, second) == Some(content)
  {
    hide ModalityOf;
    var mime := rt.sniff(content, source.declaredType, source.filename);
    var key := StorageKey(rt.hash(content));
    var db1 := Read(rt, OnlySource(first.key, source), first).0;
    var e := Extraction(0, EXTRACTOR_VERSION, ModalityOf(mime), true, blocks, first.later);
    assert FindBlob([], rt.hash(content)).None?;
    assert FindFresh([], 0, first.now, ModalityOf(mime)).None?;
    assert db1 == Db(map[first.key := source.(blob := Some(0))],
                     [Blob(rt.hash(content), key, |content|, mime, first.now, None)], map[key := content], [e]);
    assert FindFresh([e], 0, first.now, ModalityOf(mime)) == Some(e);
  }

  lemma DisagreeingIsStale(rt: Runtime, exts: iset<Extractor>, modality: Modality, x: Extractor, y: Extractor, c: Bytes)
    requires x in exts && y in exts && Admits(rt, c, modality)
    requires x(c, modality).ExtractedBlocks? && y(c, modality) != x(c, modality)
    ensures !AlwaysFresh(rt, exts, modality)
  {
    var declaredType, filename :| ModalityOf(rt.sniff(c, declaredType, filename)) == modality;
    var key, source := SourceKey("", ""), Source(filename, declaredType, None, true, Some(1), None);
    var first := Call(key, 0, 0, true, Downloaded(c), x);
    var second := Call(key, 0, 0, true, Downloaded(c), y);
    var recorded := [SourceRecorded(key, source)];
    var events := recorded + [AttachmentRead(first)];
    var db := Run(rt, NOTHING, events);
    hide ModalityOf, Read, Admits, AlwaysFresh;
    CacheIgnoresIntent(rt, source, c, x(c, modality).blocks, first, second);
    assert recorded[..0] == [] && events[..1] == recorded;
    assert Run(rt, NOTHING, []) == NOTHING && Run(rt, NOTHING, recorded) == OnlySource(key, source);
    assert db == Read(rt, OnlySource(key, source), first).0;
    assert Timely(0, recorded) && ClockAfter(0, recorded) == 0;
    assert Timely(0, events) && ClockAfter(0, events) == 0 && AllFrom(exts, events);
    assert ReachedBy(rt, exts, db, 0) && !FreshFor(rt, modality, db, second);
    NotAlwaysFresh(rt, exts, modality, db, 0, second);
  }

  lemma NotAlwaysFresh(rt: Runtime, exts: iset<Extractor>, modality: Modality, db: Db, now: int, call: Call)
    requires ReachedBy(rt, exts, db, now) && MayCome(exts, now, call)
    requires !FreshFor(rt, modality, db, call)
    ensures !AlwaysFresh(rt, exts, modality)
  {
    hide ReachedBy, FreshFor;
  }
}
