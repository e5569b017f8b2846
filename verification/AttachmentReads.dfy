// Attachment reads: a content-addressed blob store and an extraction cache.

module AttachmentReads {
  import opened Options

  type Bytes = seq<int>

  datatype Modality = TextModality | DocumentModality | ImageModality | AudioModality | UnknownModality

  // Configuration and the pure functions of the content.
  datatype Runtime = Runtime(
    maxBytes: int,
    failClosed: bool,
    hash: Bytes -> string,
    isUnsafe: Bytes -> bool,
    sniff: (Bytes, Option<string>, string) -> string)

  datatype SourceKey = SourceKey(turn: string, ref: string)

  datatype Source = Source(
    filename: string,
    declaredType: Option<string>,
    declaredSize: Option<int>,
    hasUrl: bool,
    expiresAt: Option<int>,
    blob: Option<nat>)

  // Blob ids are positions in the blob table.
  datatype Blob = Blob(
    hash: string, storageKey: string, size: nat, mime: string, updatedAt: int, deletedAt: Option<int>)

  datatype Extraction = Extraction(
    blob: nat, version: string, modality: Modality, succeeded: bool, blocks: seq<string>, createdAt: int)

  datatype Db = Db(
    sources: map<SourceKey, Source>,
    blobs: seq<Blob>,
    files: map<string, Bytes>,
    extractions: seq<Extraction>)

  datatype Download = DownloadFailed(status: string) | Downloaded(content: Bytes)

  datatype Extracted = ExtractionFailed(status: string) | ExtractedBlocks(blocks: seq<string>)

  // What the outside makes of a content when it is asked to extract it.
  type Extractor = (Bytes, Modality) -> Extracted

  // One call: the clock at its start and at the extraction, and what the outside
  // would answer if asked. The caller's intent is part of `extract`.
  datatype Call = Call(
    key: SourceKey, now: int, later: int, decrypts: bool, download: Download,
    extract: Extractor)

  datatype Outcome =
    | ReadOk(modality: Modality, hash: string, size: nat, mime: string, blocks: seq<string>)
    | ReadFailed(status: string, modality: Modality)

  // `downloaded` and `extracted` say whether the outside was asked.
  datatype Reading = Reading(outcome: Outcome, downloaded: bool, extracted: bool)

  const EXTRACTOR_VERSION := "1.0"

  predicate StartsWith(s: string, prefix: string)
  {
    prefix <= s
  }

  function ModalityOf(mime: string): Modality
  {
    if mime == "application/pdf" then DocumentModality
    else if StartsWith(mime, "image/") then ImageModality
    else if StartsWith(mime, "audio/") then AudioModality
    else if StartsWith(mime, "text/") then TextModality
    else if mime in {"application/json", "application/xml", "application/csv"} then TextModality
    else UnknownModality
  }

  function StorageKey(hash: string): string
  {
    (if |hash| <= 2 then hash else hash[..2]) + "/" + hash
  }

  // ------------------------------------------------------------ table lookups

  function FindBlob(blobs: seq<Blob>, hash: string): (r: Option<nat>)
    ensures r.Some? ==> r.value < |blobs| && blobs[r.value].hash == hash
    ensures r.None? ==> forall i :: 0 <= i < |blobs| ==> blobs[i].hash != hash
  {
    if blobs == [] then None
    else if blobs[|blobs| - 1].hash == hash then Some(|blobs| - 1)
    else FindBlob(blobs[..|blobs| - 1], hash)
  }

  // A succeeded extraction that is not older than the blob's content.
  predicate Fresh(e: Extraction, blob: nat, updatedAt: int, modality: Modality)
  {
    && e.blob == blob && e.version == EXTRACTOR_VERSION && e.modality == modality
    && e.succeeded && e.createdAt >= updatedAt
  }

  function FindFresh(es: seq<Extraction>, blob: nat, updatedAt: int, modality: Modality): (r: Option<Extraction>)
    ensures r.Some? ==> r.value in es && Fresh(r.value, blob, updatedAt, modality)
    ensures r.None? ==> forall i :: 0 <= i < |es| ==> !Fresh(es[i], blob, updatedAt, modality)
  {
    if es == [] then None
    else if Fresh(es[0], blob, updatedAt, modality) then Some(es[0])
    else FindFresh(es[1..], blob, updatedAt, modality)
  }

  // The source's blob, if it is still there with its file.
  function StoredBlob(db: Db, source: Source): Option<nat>
  {
    if source.blob.Some? && source.blob.value < |db.blobs|
       && db.blobs[source.blob.value].deletedAt.None? && db.blobs[source.blob.value].storageKey in db.files
    then source.blob else None
  }

  // -------------------------------------------------------------- one read

  function Failed(status: string, modality: Modality, downloaded: bool): Reading
  {
    Reading(ReadFailed(status, modality), downloaded, false)
  }

  // Why a content that is not stored cannot be downloaded.
  function Refusal(rt: Runtime, source: Source, call: Call): Option<string>
  {
    if source.declaredSize.Some? && source.declaredSize.value > rt.maxBytes then Some("too_large")
    else if !source.hasUrl || source.expiresAt.None? || source.expiresAt.value <= call.now then Some("expired")
    else if !call.decrypts then Some("unavailable")
    else None
  }

  // Put the content under its hash: a new blob, or the one that is there.
  function StoreContent(rt: Runtime, db: Db, content: Bytes, mime: string, now: int): (r: (Db, nat))
    ensures r.1 < |r.0.blobs|
  {
    var hash := rt.hash(content);
    match FindBlob(db.blobs, hash)
    case None =>
      var key := StorageKey(hash);
      (db.(files := if key in db.files then db.files else db.files[key := content],
           blobs := db.blobs + [Blob(hash, key, |content|, mime, now, None)]), |db.blobs|)
    case Some(id) =>
      var blob := db.blobs[id];
      (db.(files := if blob.storageKey in db.files then db.files else db.files[blob.storageKey := content],
           blobs := if blob.deletedAt.None? then db.blobs
                    else
                      var revived := blob.(size := |content|, mime := mime, updatedAt := now, deletedAt := None);
                      db.blobs[id := revived]), id)
  }

  function LinkContent(rt: Runtime, db: Db, source: Source, content: Bytes, mime: string, call: Call): (r: (Db, nat))
    ensures r.1 < |r.0.blobs|
  {
    var (stored, id) := StoreContent(rt, db, content, mime, call.now);
    (stored.(sources := db.sources[call.key := source.(blob := Some(id))]), id)
  }

  // The extraction step on a stored blob: the cached blocks, or new ones.
  function Extract(db: Db, id: nat, content: Bytes, modality: Modality, call: Call, downloaded: bool): (Db, Reading)
    requires id < |db.blobs|
  {
    var blob := db.blobs[id];
    match FindFresh(db.extractions, id, blob.updatedAt, modality)
    case Some(e) => (db, Reading(ReadOk(modality, blob.hash, blob.size, blob.mime, e.blocks), downloaded, false))
    case None =>
      match call.extract(content, modality)
      case ExtractionFailed(status) =>
        (db.(extractions := db.extractions + [Extraction(id, EXTRACTOR_VERSION, modality, false, [], call.later)]),
         Reading(ReadFailed(status, modality), downloaded, true))
      case ExtractedBlocks(blocks) =>
        (db.(extractions := db.extractions + [Extraction(id, EXTRACTOR_VERSION, modality, true, blocks, call.later)]),
         Reading(ReadOk(modality, blob.hash, blob.size, blob.mime, blocks), downloaded, true))
  }

  function Read(rt: Runtime, db: Db, call: Call): (Db, Reading)
  {
    if call.key !in db.sources then (db, Failed("unavailable", UnknownModality, false))
    else
      var source := db.sources[call.key];
      match StoredBlob(db, source)
      case Some(id) => ReadStored(rt, db, source, id, call)
      case None =>
        match Refusal(rt, source, call)
        case Some(status) => (db, Failed(status, UnknownModality, false))
        case None =>
          match call.download
          case DownloadFailed(status) => (db, Failed(status, UnknownModality, true))
          case Downloaded(content) => ReadDownloaded(rt, db, source, content, call)
  }

  function ReadStored(rt: Runtime, db: Db, source: Source, id: nat, call: Call): (Db, Reading)
    requires StoredBlob(db, source) == Some(id)
  {
    var content := db.files[db.blobs[id].storageKey];
    var modality := ModalityOf(rt.sniff(content, source.declaredType, source.filename));
    if modality == UnknownModality then (db, Failed("unsupported_type", modality, false))
    else Extract(db, id, content, modality, call, false)
  }

  function ReadDownloaded(rt: Runtime, db: Db, source: Source, content: Bytes, call: Call): (Db, Reading)
  {
    var mime := rt.sniff(content, source.declaredType, source.filename);
    var modality := ModalityOf(mime);
    if modality == UnknownModality then (db, Failed("unsupported_type", modality, true))
    else if rt.isUnsafe(content) then (db, Failed("unsafe", modality, true))
    else if rt.failClosed then (db, Failed("scan_failed", modality, true))
    else
      var (linked, id) := LinkContent(rt, db, source, content, mime, call);
      Extract(linked, id, content, modality, call, true)
  }

  // What happens to the tables. Reads and newly recorded sources are this
  // component's own doing, lost files and tombstoned blobs come from outside.
  datatype Event =
    | AttachmentRead(call: Call)
    | SourceRecorded(key: SourceKey, source: Source)
    | BlobTombstoned(id: nat, at: int)
    | FileLost(storageKey: string)

  function Apply(rt: Runtime, db: Db, event: Event): Db
  {
    match event
    case AttachmentRead(call) => Read(rt, db, call).0
    case SourceRecorded(key, source) =>
      if key in db.sources then db else db.(sources := db.sources[key := source.(blob := None)])
    case BlobTombstoned(id, at) =>
      if id >= |db.blobs| then db
      else db.(blobs := db.blobs[id := db.blobs[id].(deletedAt := Some(at), updatedAt := at)])
    case FileLost(storageKey) => db.(files := db.files - {storageKey})
  }

  function Run(rt: Runtime, db: Db, events: seq<Event>): Db
  {
    if events == [] then db else Apply(rt, Run(rt, db, events[..|events| - 1]), events[|events| - 1])
  }

  // --------------------------------------------------------- the running store

  // The same read on tables that are updated in place.
  class AttachmentStore {
    const rt: Runtime
    var sources: map<SourceKey, Source>
    var blobs: seq<Blob>
    var files: map<string, Bytes>
    var extractions: seq<Extraction>

    constructor (rt: Runtime, db: Db)
      ensures this.rt == rt && View() == db
    {
      this.rt := rt;
      sources, blobs, files, extractions := db.sources, db.blobs, db.files, db.extractions;
    }

    ghost function View(): Db
      reads this
    {
      Db(sources, blobs, files, extractions)
    }

    method Store(content: Bytes, mime: string, now: int) returns (id: nat)
      modifies this`blobs, this`files
      ensures (View(), id) == StoreContent(rt, old(View()), content, mime, now)
    {
      var hash := rt.hash(content);
      var found := FindBlob(blobs, hash);
      if found.None? {
        var key := StorageKey(hash);
        if key !in files {
          files := files[key := content];
        }
        id := |blobs|;
        blobs := blobs + [Blob(hash, key, |content|, mime, now, None)];
      } else {
        id := found.value;
        var blob := blobs[id];
        if blob.storageKey !in files {
          files := files[blob.storageKey := content];
        }
        if blob.deletedAt.Some? {
          blobs := blobs[id := blob.(size := |content|, mime := mime, updatedAt := now, deletedAt := None)];
        }
      }
    }

    method ExecuteRead(call: Call) returns (reading: Reading)
      modifies this
      ensures (View(), reading) == Read(rt, old(View()), call)
    {
      if call.key !in sources {
        return Failed("unavailable", UnknownModality, false);
      }
      var source := sources[call.key];
      var id: nat, content: Bytes, modality: Modality, downloaded: bool;
      if source.blob.Some? && source.blob.value < |blobs|
         && blobs[source.blob.value].deletedAt.None? && blobs[source.blob.value].storageKey in files {
        id, downloaded := source.blob.value, false;
        content := files[blobs[id].storageKey];
        modality := ModalityOf(rt.sniff(content, source.declaredType, source.filename));
        if modality == UnknownModality {
          return Failed("unsupported_type", modality, false);
        }
      } else {
        if source.declaredSize.Some? && source.declaredSize.value > rt.maxBytes {
          return Failed("too_large", UnknownModality, false);
        }
        if !source.hasUrl || source.expiresAt.None? || source.expiresAt.value <= call.now {
          return Failed("expired", UnknownModality, false);
        }
        if !call.decrypts {
          return Failed("unavailable", UnknownModality, false);
        }
        if call.download.DownloadFailed? {
          return Failed(call.download.status, UnknownModality, true);
        }
        content := call.download.content;
        var mime := rt.sniff(content, source.declaredType, source.filename);
        modality := ModalityOf(mime);
        if modality == UnknownModality {
          return Failed("unsupported_type", modality, true);
        }
        if rt.isUnsafe(content) {
          return Failed("unsafe", modality, true);
        }
        if rt.failClosed {
          return Failed("scan_failed", modality, true);
        }
        downloaded := true;
        id := Store(content, mime, call.now);
        sources := sources[call.key := source.(blob := Some(id))];
      }
      var blob := blobs[id];
      var cached := FindFresh(extractions, id, blob.updatedAt, modality);
      if cached.Some? {
        return Reading(ReadOk(modality, blob.hash, blob.size, blob.mime, cached.value.blocks), downloaded, false);
      }
      match call.extract(content, modality) {
        case ExtractionFailed(status) =>
          extractions := extractions + [Extraction(id, EXTRACTOR_VERSION, modality, false, [], call.later)];
          return Reading(ReadFailed(status, modality), downloaded, true);
        case ExtractedBlocks(blocks) =>
          extractions := extractions + [Extraction(id, EXTRACTOR_VERSION, modality, true, blocks, call.later)];
          return Reading(ReadOk(modality, blob.hash, blob.size, blob.mime, blocks), downloaded, true);
      }
    }
  }
}
