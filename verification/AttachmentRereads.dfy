// Reading again: what stays answered from the tables, what does not, and why.

module AttachmentRereads {
  import opened Options
  import opened AttachmentReads
  import opened AttachmentProofs

  // Nothing outside removes blobs or files.
  predicate Quiet(events: seq<Event>)
  {
    forall i :: 0 <= i < |events| ==> events[i].AttachmentRead? || events[i].SourceRecorded?
  }

  // The source's stored content and everything extracted so far is still there.
  predicate Kept(db: Db, db': Db, key: SourceKey)
  {
    key in db.sources && key in db'.sources && db'.sources[key] == db.sources[key] &&
    var id := StoredBlob(db, db.sources[key]);
    id.Some? && StoredBlob(db', db'.sources[key]) == id && db'.blobs[id.value] == db.blobs[id.value] &&
    db'.files[db.blobs[id.value].storageKey] == db.files[db.blobs[id.value].storageKey] &&
    db.extractions <= db'.extractions
  }

  lemma ExtractKeeps(db: Db, key: SourceKey, id: nat, content: Bytes, modality: Modality, call: Call, downloaded: bool)
    requires key in db.sources && StoredBlob(db, db.sources[key]).Some? && id < |db.blobs|
    ensures Kept(db, Extract(db, id, content, modality, call, downloaded).0, key)
  {
  }

  lemma LinkKeeps(rt: Runtime, db: Db, key: SourceKey, source: Source, content: Bytes, mime: string, call: Call)
    requires key in db.sources && StoredBlob(db, db.sources[key]).Some? && key != call.key
    ensures Kept(db, LinkContent(rt, db, source, content, mime, call).0, key)
  {
  }

  lemma KeptTrans(a: Db, b: Db, c: Db, key: SourceKey)
    requires Kept(a, b, key) && Kept(b, c, key)
    ensures Kept(a, c, key)
  {
  }

  lemma ReadKeeps(rt: Runtime, db: Db, key: SourceKey, call: Call)
    requires key in db.sources && StoredBlob(db, db.sources[key]).Some?
    ensures Kept(db, Read(rt, db, call).0, key)
  {
    hide LinkContent, Extract;
    if call.key in db.sources {
      var source := db.sources[call.key];
      var stored := StoredBlob(db, source);
      if stored.Some? {
        var content := db.files[db.blobs[stored.value].storageKey];
        var modality := ModalityOf(rt.sniff(content, source.declaredType, source.filename));
        ExtractKeeps(db, key, stored.value, content, modality, call, false);
      } else if call.download.Downloaded? {
        var content := call.download.content;
        var mime := rt.sniff(content, source.declaredType, source.filename);
        LinkKeeps(rt, db, key, source, content, mime, call);
        var (linked, id) := LinkContent(rt, db, source, content, mime, call);
        ExtractKeeps(linked, key, id, content, ModalityOf(mime), call, true);
        KeptTrans(db, linked, Extract(linked, id, content, ModalityOf(mime), call, true).0, key);
      }
    }
  }

  lemma {:induction false} RunKeeps(rt: Runtime, db: Db, key: SourceKey, events: seq<Event>)
    requires key in db.sources && StoredBlob(db, db.sources[key]).Some? && Quiet(events)
    ensures Kept(db, Run(rt, db, events), key)
  {
    if events != [] {
      hide Read;
      var before, last := events[..|events| - 1], events[|events| - 1];
      RunKeeps(rt, db, key, before);
      var db1 := Run(rt, db, before);
      if last.AttachmentRead? {
        ReadKeeps(rt, db1, key, last.call);
      }
      KeptTrans(db, db1, Apply(rt, db1, last), key);
    }
  }

  // ---------------------------------------------------------- settled sources

  // Any read of this source is answered from the tables with this outcome.
  predicate Settled(rt: Runtime, db: Db, key: SourceKey, outcome: Outcome)
  {
    key in db.sources &&
    var source := db.sources[key];
    var id := StoredBlob(db, source);
    id.Some? &&
    var blob := db.blobs[id.value];
    var modality := ModalityOf(rt.sniff(db.files[blob.storageKey], source.declaredType, source.filename));
    var cached := FindFresh(db.extractions, id.value, blob.updatedAt, modality);
    modality != UnknownModality && cached.Some? &&
    outcome == ReadOk(modality, blob.hash, blob.size, blob.mime, cached.value.blocks)
  }

  lemma {:induction false} FirstFreshStays(
    es: seq<Extraction>, es': seq<Extraction>, blob: nat, updatedAt: int, modality: Modality)
    requires es <= es' && FindFresh(es, blob, updatedAt, modality).Some?
    ensures FindFresh(es', blob, updatedAt, modality) == FindFresh(es, blob, updatedAt, modality)
  {
    assert es'[0] == es[0];
    if !Fresh(es[0], blob, updatedAt, modality) {
      FirstFreshStays(es[1..], es'[1..], blob, updatedAt, modality);
    }
  }

  lemma {:induction false} NewFreshIsFound(
    es: seq<Extraction>, e: Extraction, blob: nat, updatedAt: int, modality: Modality)
    requires FindFresh(es, blob, updatedAt, modality).None? && Fresh(e, blob, updatedAt, modality)
    ensures FindFresh(es + [e], blob, updatedAt, modality) == Some(e)
  {
    if es != [] {
      assert (es + [e])[1..] == es[1..] + [e];
      NewFreshIsFound(es[1..], e, blob, updatedAt, modality);
    }
  }

  lemma SettledStays(rt: Runtime, db: Db, db': Db, key: SourceKey, outcome: Outcome)
    requires Settled(rt, db, key, outcome) && Kept(db, db', key)
    ensures Settled(rt, db', key, outcome)
  {
    var source := db.sources[key];
    var blob := StoredBlob(db, source).value;
    var modality := ModalityOf(rt.sniff(db.files[db.blobs[blob].storageKey], source.declaredType, source.filename));
    FirstFreshStays(db.extractions, db'.extractions, blob, db.blobs[blob].updatedAt, modality);
  }

  lemma ExtractSettles(rt: Runtime, db: Db, id: nat, content: Bytes, modality: Modality, call: Call, downloaded: bool)
    requires call.key in db.sources && StoredBlob(db, db.sources[call.key]) == Some(id)
    requires db.files[db.blobs[id].storageKey] == content && modality != UnknownModality
    requires modality == ModalityOf(rt.sniff(content, db.sources[call.key].declaredType, db.sources[call.key].filename))
    requires db.blobs[id].updatedAt <= call.later
    ensures var (after, reading) := Extract(db, id, content, modality, call, downloaded);
            reading.outcome.ReadOk? ==> Settled(rt, after, call.key, reading.outcome)
  {
    var updatedAt := db.blobs[id].updatedAt;
    var after := Extract(db, id, content, modality, call, downloaded).0;
    if FindFresh(db.extractions, id, updatedAt, modality).None? && call.extract(content, modality).ExtractedBlocks? {
      NewFreshIsFound(db.extractions, after.extractions[|db.extractions|], id, updatedAt, modality);
    }
  }

  lemma LinkStores(rt: Runtime, db: Db, source: Source, content: Bytes, mime: string, clock: int, call: Call)
    requires CollisionFree(rt) && Healthy(rt, db, clock) && clock <= call.now
    ensures var (linked, id) := LinkContent(rt, db, source, content, mime, call);
            call.key in linked.sources && linked.sources[call.key] == source.(blob := Some(id)) &&
            StoredBlob(linked, linked.sources[call.key]) == Some(id) &&
            linked.files[linked.blobs[id].storageKey] == content && linked.blobs[id].updatedAt <= call.now
  {
    hide CollisionFree, StoreContent;
    LinkKeepsHealthy(rt, db, source, content, mime, clock, call);
  }

  lemma SuccessSettles(rt: Runtime, db: Db, clock: int, call: Call)
    requires CollisionFree(rt) && Healthy(rt, db, clock) && clock <= call.now <= call.later
    ensures var (after, reading) := Read(rt, db, call);
            reading.outcome.ReadOk? ==> Settled(rt, after, call.key, reading.outcome)
  {
    hide CollisionFree, LinkContent, Extract, Settled;
    if call.key in db.sources {
      var source := db.sources[call.key];
      var stored := StoredBlob(db, source);
      if stored.Some? {
        var content := db.files[db.blobs[stored.value].storageKey];
        var modality := ModalityOf(rt.sniff(content, source.declaredType, source.filename));
        if modality != UnknownModality {
          ExtractSettles(rt, db, stored.value, content, modality, call, false);
        }
      } else if call.download.Downloaded? {
        var content := call.download.content;
        var mime := rt.sniff(content, source.declaredType, source.filename);
        LinkStores(rt, db, source, content, mime, clock, call);
        var (linked, id) := LinkContent(rt, db, source, content, mime, call);
        if ModalityOf(mime) != UnknownModality {
          ExtractSettles(rt, linked, id, content, ModalityOf(mime), call, true);
        }
      }
    }
  }

  // The read succeeds with this outcome and leaves these tables.
  ghost predicate Answered(rt: Runtime, db: Db, call: Call, db': Db, outcome: Outcome)
  {
    && outcome.ReadOk?
    && exists downloaded, extracted :: Read(rt, db, call) == (db', Reading(outcome, downloaded, extracted))
  }

  ghost predicate LeadsQuietly(rt: Runtime, db: Db, db': Db)
  {
    exists events :: Quiet(events) && db' == Run(rt, db, events)
  }

  // Nothing is asked of the outside and no table changes.
  predicate AnsweredFreely(rt: Runtime, db: Db, call: Call, outcome: Outcome)
  {
    Read(rt, db, call) == (db, Reading(outcome, false, false))
  }

  // Reading a source again after it was read, with anything but removals in
  // between, gives the same outcome for free.
  lemma RereadIsFree(rt: Runtime, db: Db, now: int, first: Call, db1: Db, outcome: Outcome, db2: Db, second: Call)
    requires CollisionFree(rt) && Reached(rt, db, now) && OnTime(now, AttachmentRead(first))
    requires Answered(rt, db, first, db1, outcome) && LeadsQuietly(rt, db1, db2) && second.key == first.key
    ensures AnsweredFreely(rt, db2, second, outcome)
  {
    ReachedIsHealthy(rt, db, now);
    SuccessSettles(rt, db, now, first);
    hide CollisionFree, Healthy, Reached, Run;
    var events :| Quiet(events) && db2 == Run(rt, db1, events);
    RunKeeps(rt, db1, first.key, events);
    SettledStays(rt, db1, db2, first.key, outcome);
    SettledIsFree(rt, db2, second, outcome);
  }

  lemma SettledIsFree(rt: Runtime, db: Db, call: Call, outcome: Outcome)
    requires Settled(rt, db, call.key, outcome)
    ensures AnsweredFreely(rt, db, call, outcome)
  {
  }

  // -------------------------------------------------------------- what is refused

  // The call brings back the content of a tombstoned blob.
  predicate BringsBack(rt: Runtime, db: Db, call: Call)
  {
    && call.key in db.sources && StoredBlob(db, db.sources[call.key]).None? && call.download.Downloaded?
    && var id := FindBlob(db.blobs, rt.hash(call.download.content));
       id.Some? && db.blobs[id.value].deletedAt.Some?
  }

  // What it reports, it extracted itself from what it downloaded.
  predicate ExtractedAnew(rt: Runtime, db: Db, call: Call)
  {
    var reading := Read(rt, db, call).1;
    reading.outcome.ReadOk? ==>
      && reading.downloaded && reading.extracted && call.download.Downloaded?
      && call.extract(call.download.content, reading.outcome.modality) == ExtractedBlocks(reading.outcome.blocks)
  }

  lemma OldRowsAreStale(rt: Runtime, db: Db, call: Call)
    requires BringsBack(rt, db, call)
    requires forall i :: 0 <= i < |db.extractions| ==> db.extractions[i].createdAt < call.now
    ensures ExtractedAnew(rt, db, call)
  {
    hide ModalityOf;
  }

  // Content that comes back after its blob was tombstoned is extracted anew:
  // extractions from before the revival are not used.
  lemma RevivedContentIsExtractedAnew(rt: Runtime, db: Db, now: int, call: Call)
    requires CollisionFree(rt) && Reached(rt, db, now) && now < call.now && BringsBack(rt, db, call)
    ensures ExtractedAnew(rt, db, call)
  {
    ReachedIsHealthy(rt, db, now);
    assert TimesOk(db.extractions, now);
    hide CollisionFree, Reached, Healthy, BringsBack, ExtractedAnew;
    OldRowsAreStale(rt, db, call);
  }

  // A runtime that fails closed takes nothing in.
  lemma {:induction false} FailClosedStoresNothing(rt: Runtime, db: Db, events: seq<Event>)
    requires rt.failClosed
    ensures var db' := Run(rt, db, events);
            |db'.blobs| == |db.blobs| &&
            (forall key :: key in db'.files ==> key in db.files && db'.files[key] == db.files[key]) &&
            forall i :: 0 <= i < |db.blobs| && db.blobs[i].deletedAt.Some? ==> db'.blobs[i].deletedAt.Some?
  {
    if events != [] {
      FailClosedStoresNothing(rt, db, events[..|events| - 1]);
    }
  }

  // ---------------------------------------------------------- why a read fails

  lemma ModalityExactly(mime: string)
    ensures ModalityOf(mime) == DocumentModality <==> mime == "application/pdf"
    ensures ModalityOf(mime) == ImageModality <==> "image/" <= mime
    ensures ModalityOf(mime) == AudioModality <==> "audio/" <= mime
    ensures ModalityOf(mime) == TextModality
            <==> "text/" <= mime || mime in {"application/json", "application/xml", "application/csv"}
  {
    assert |mime| > 0 && mime[0] == 'a' ==> !("image/" <= mime) && !("text/" <= mime);
    assert "application/pdf"[1] == "application/json"[1] == "application/xml"[1] == "application/csv"[1] == 'p';
    assert "audio/" <= mime ==> mime[0] == 'a' && mime[1] == 'u';
    assert "image/" <= mime ==> mime[0] == 'i';
    assert "text/" <= mime ==> mime[0] == 't';
    assert "application/pdf"[0] == "application/json"[0] == "application/xml"[0] == "application/csv"[0] == 'a';
  }

  // A read that asks nothing of the outside and fails has one of these causes, and
  // its status names the first that applies.
  lemma ReadFailsUnasked(rt: Runtime, db: Db, call: Call)
    ensures var r := Read(rt, db, call).1;
            r.outcome.ReadFailed? && !r.downloaded && !r.extracted ==>
              if call.key !in db.sources then r.outcome.status == "unavailable"
              else
                var source := db.sources[call.key];
                if StoredBlob(db, source).Some? then
                  r.outcome.status == "unsupported_type"
                else if source.declaredSize.Some? && source.declaredSize.value > rt.maxBytes then
                  r.outcome.status == "too_large"
                else if source.hasUrl && source.expiresAt.Some? && call.now < source.expiresAt.value then
                  r.outcome.status == "unavailable" && !call.decrypts
                else r.outcome.status == "expired"
    ensures call.key in db.sources && StoredBlob(db, db.sources[call.key]).None?
            && !Fetchable(rt, db.sources[call.key], call.now) ==>
              Read(rt, db, call).1.outcome.ReadFailed? && !Read(rt, db, call).1.downloaded
  {
    hide ModalityOf, LinkContent, FindFresh;
  }

  // A read that downloads and does not store has one of these causes, in this order.
  lemma ReadFailsFetched(rt: Runtime, db: Db, call: Call)
    requires call.key in db.sources && StoredBlob(db, db.sources[call.key]).None?
    requires Fetchable(rt, db.sources[call.key], call.now) && call.decrypts
    ensures var r := Read(rt, db, call).1; var source := db.sources[call.key];
            && r.downloaded
            && (call.download.DownloadFailed? ==> r.outcome == ReadFailed(call.download.status, UnknownModality))
            && (call.download.Downloaded? ==>
                  var content := call.download.content;
                  var modality := ModalityOf(rt.sniff(content, source.declaredType, source.filename));
                  && (modality == UnknownModality ==> r.outcome == ReadFailed("unsupported_type", modality))
                  && (modality != UnknownModality && rt.isUnsafe(content) ==>
                        r.outcome == ReadFailed("unsafe", modality))
                  && (modality != UnknownModality && !rt.isUnsafe(content) && rt.failClosed ==>
                        r.outcome == ReadFailed("scan_failed", modality)))
  {
    hide ModalityOf, LinkContent, FindFresh;
  }

  // A successful read reports the modality that its content has for its source; the
  // content is stored under the type it was taken in with, whether new or revived.
  lemma ReadKindExactly(rt: Runtime, db: Db, call: Call)
    requires call.key in db.sources && Read(rt, db, call).1.outcome.ReadOk?
    ensures var r := Read(rt, db, call).1; var source := db.sources[call.key];
            match StoredBlob(db, source)
            case Some(id) =>
              var content := db.files[db.blobs[id].storageKey];
              && r.outcome.modality == ModalityOf(rt.sniff(content, source.declaredType, source.filename))
              && r.outcome.mime == db.blobs[id].mime
            case None =>
              && call.download.Downloaded?
              && var mime := rt.sniff(call.download.content, source.declaredType, source.filename);
                 var known := FindBlob(db.blobs, rt.hash(call.download.content));
                 && r.outcome.modality == ModalityOf(mime)
                 && (known.None? || db.blobs[known.value].deletedAt.Some? ==> r.outcome.mime == mime)
                 && (known.Some? && db.blobs[known.value].deletedAt.None? ==>
                       r.outcome.mime == db.blobs[known.value].mime)
  {
    hide ModalityOf, FindFresh;
  }
}
