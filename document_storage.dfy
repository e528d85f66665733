/**
 * `store_document`, the handler of `PUT /document/<document_url>`: parse the
 * multipart request, choose the entrypoint, then, inside the folder
 * transaction, store every part under the document's folder and write the
 * metadata manifest last. A parse error is answered with 400; an exception
 * out of the transaction reaches `lambda_handler`, which answers 500.
 */
module DocumentStorage {
  import opened Strings
  import opened ObjectStore
  import opened FolderTransaction
  import opened OrderedParts
  import opened MultipartRequest
  import opened Entrypoint

  /** The folder every document lives under (`get_documents_folder`). */
  const DocumentsFolder: string := "document-storage"

  /** The file name of the manifest inside a document's folder. */
  const MetadataName: string := ".metadata.json"

  const StoredMessage: string := "Document stored successfully"

  /** The manifest; `timestamp` is the already formatted string `store_document` stores. */
  datatype Metadata = Metadata(documentUrl: string, entrypoint: string, files: seq<string>, timestamp: string)

  /** The calls besides the store: the SHA-256 hex digest, and the JSON serialisation of the manifest. */
  datatype Services = Services(sha256Hex: string -> string, metadataJson: Metadata -> string)

  datatype Body =
    | ErrorBody(error: string)
    | StoredBody(message: string, folderPath: string, entrypoint: string, files: seq<string>)
    | InternalErrorBody(error: string, message: string)

  datatype Response = Response(statusCode: int, body: Body)

  /** The answer of `lambda_handler` when the handler raises. */
  const InternalError: Response :=
    Response(500, InternalErrorBody("Internal server error", "An unexpected error occurred"))

  /** The document's folder: the documents folder, a slash, and the hex SHA-256 digest of the URL. */
  function DocumentFolder(documentUrl: string, services: Services): Key {
    DocumentsFolder + "/" + services.sha256Hex(documentUrl)
  }

  /** The Content-Type a file is stored with. */
  function ContentTypeFor(filename: string): (t: string)
    ensures HasSuffix(filename, ".html") ==> t == "text/html"
    ensures !HasSuffix(filename, ".html") ==> t == "text/plain"
  {
    if HasSuffix(filename, ".html") then "text/html"
    else if HasSuffix(filename, ".txt") then "text/plain"
    else "text/plain"
  }

  /** Both entrypoint names get the Content-Type of their kind. */
  lemma EntrypointContentTypes()
    ensures ContentTypeFor(HtmlName) == "text/html"
    ensures ContentTypeFor(TextName) == "text/plain"
    ensures ContentTypeFor(GenericName) == "text/plain"
  {
    assert HtmlName[|HtmlName| - 5..] == ".html";
    assert TextName[|TextName| - 5..] != ".html";
  }

  function MetadataKey(folder: Key): Key {
    LivePrefix(folder) + MetadataName
  }

  /** The puts of the file loop, one per part, in the dictionary's order. */
  function FileWrites(folder: Key, parts: Parts): (w: seq<PutRequest>)
    requires parts.Valid()
    ensures |w| == |parts.names|
    // the i-th put is under the folder, and the rest of its key is the i-th name
    ensures forall i :: 0 <= i < |w| ==>
      HasPrefix(w[i].key, LivePrefix(folder)) && w[i].key[|LivePrefix(folder)|..] == parts.names[i]
    ensures forall i :: 0 <= i < |w| ==>
      && w[i].body == parts.content[parts.names[i]]
      && (w[i].contentType == "text/html" <==> HasSuffix(parts.names[i], ".html"))
  {
    assert forall i :: 0 <= i < |parts.names| ==>
      (LivePrefix(folder) + parts.names[i])[..|LivePrefix(folder)|] == LivePrefix(folder) &&
      (LivePrefix(folder) + parts.names[i])[|LivePrefix(folder)|..] == parts.names[i];
    seq(|parts.names|, i requires 0 <= i < |parts.names| =>
      PutRequest(LivePrefix(folder) + parts.names[i], parts.content[parts.names[i]], ContentTypeFor(parts.names[i])))
  }

  /** The whole write action: the files, then the manifest. */
  function WriteAction(folder: Key, parts: Parts, metadataBody: Bytes): (w: seq<PutRequest>)
    requires parts.Valid()
    ensures |w| == |parts.names| + 1
    ensures w[..|parts.names|] == FileWrites(folder, parts)
    // the manifest is the last put
    ensures w[|parts.names|] == PutRequest(MetadataKey(folder), metadataBody, "application/json")
  {
    FileWrites(folder, parts) + [PutRequest(MetadataKey(folder), metadataBody, "application/json")]
  }

  /**
   * The manifest of an accepted request: its entrypoint is one of its files,
   * and its files are the stored parts, each once, in the dictionary's order.
   */
  function ManifestOf(documentUrl: string, parsed: Parts, timestamp: string): (m: Metadata)
    requires parsed.Valid() && EntrypointName(parsed).Some?
    ensures m.documentUrl == documentUrl && m.timestamp == timestamp
    ensures m.entrypoint == EntrypointName(parsed).value && m.entrypoint in m.files
    ensures forall n :: n in m.files <==> n in ResolvedParts(parsed).content
    ensures forall i, j :: 0 <= i < j < |m.files| ==> m.files[i] != m.files[j]
    // the list the response returns too: the stored parts in the dictionary's order
    ensures m.files == ResolvedParts(parsed).names
  {
    EntrypointIsStored(parsed);
    Metadata(documentUrl, EntrypointName(parsed).value, ResolvedParts(parsed).names, timestamp)
  }

  /** The manifest's bytes: its JSON text, UTF-8 encoded. */
  function ManifestBody(m: Metadata, codecs: Codecs, services: Services): Bytes {
    codecs.utf8Encode(services.metadataJson(m))
  }

  /** Every put of the write action lands inside the document's folder. */
  lemma WritesStayInFolder(folder: Key, parts: Parts, metadataBody: Bytes)
    requires parts.Valid()
    ensures WritesUnder(WriteAction(folder, parts, metadataBody), LivePrefix(folder))
  {
    var w, live := WriteAction(folder, parts, metadataBody), LivePrefix(folder);
    forall i | 0 <= i < |w| ensures HasPrefix(w[i].key, live) {
      var name := if i < |parts.names| then parts.names[i] else MetadataName;
      assert w[i].key == live + name;
      assert (live + name)[..|live|] == live;
    }
  }

  lemma AppendCancels(p: Key, a: Key, b: Key)
    requires p + a == p + b
    ensures a == b
  {
    assert a == (p + a)[|p|..];
    assert b == (p + b)[|p|..];
  }

  /**
   * What a committed write action leaves in the folder: one object per part
   * and the manifest, nothing else; each part's bytes with the Content-Type
   * of its name (a part called `.metadata.json` is overwritten by the
   * manifest, which is written last).
   */
  lemma CommittedFolderContents(folder: Key, parts: Parts, metadataBody: Bytes)
    requires parts.Valid()
    ensures var stored := ApplyPuts(map[], WriteAction(folder, parts, metadataBody));
      && stored.Keys == (set n | n in parts.content :: LivePrefix(folder) + n) + {MetadataKey(folder)}
      && stored[MetadataKey(folder)] == StoredObject(metadataBody, "application/json")
      && forall n :: n in parts.content && n != MetadataName ==>
           stored[LivePrefix(folder) + n] == StoredObject(parts.content[n], ContentTypeFor(n))
  {
    var w := WriteAction(folder, parts, metadataBody);
    CommittedKeys(folder, parts, metadataBody);
    ApplyPutsLastWins(map[], w, |parts.names|);
    forall n | n in parts.content && n != MetadataName
      ensures ApplyPuts(map[], w)[LivePrefix(folder) + n] == StoredObject(parts.content[n], ContentTypeFor(n))
    {
      CommittedFile(folder, parts, metadataBody, n);
    }
  }

  lemma CommittedKeys(folder: Key, parts: Parts, metadataBody: Bytes)
    requires parts.Valid()
    ensures ApplyPuts(map[], WriteAction(folder, parts, metadataBody)).Keys ==
            (set n | n in parts.content :: LivePrefix(folder) + n) + {MetadataKey(folder)}
  {
    var live := LivePrefix(folder);
    var w := WriteAction(folder, parts, metadataBody);
    var k := |parts.names|;
    ApplyPutsKeys(map[], w);
    forall key | key in PutKeys(w) ensures key in (set n | n in parts.content :: live + n) + {MetadataKey(folder)} {
      var i :| 0 <= i < |w| && w[i].key == key;
      if i < k { assert parts.names[i] in parts.content; }
    }
    forall n | n in parts.content ensures live + n in PutKeys(w) {
      var i := IndexOf(parts.names, n);
      assert w[i].key == live + n;
    }
    assert w[k].key == MetadataKey(folder);
  }

  lemma CommittedFile(folder: Key, parts: Parts, metadataBody: Bytes, n: string)
    requires parts.Valid() && n in parts.content && n != MetadataName
    ensures LivePrefix(folder) + n in ApplyPuts(map[], WriteAction(folder, parts, metadataBody))
    ensures ApplyPuts(map[], WriteAction(folder, parts, metadataBody))[LivePrefix(folder) + n] ==
            StoredObject(parts.content[n], ContentTypeFor(n))
  {
    var live := LivePrefix(folder);
    var w := WriteAction(folder, parts, metadataBody);
    var k := |parts.names|;
    var i := IndexOf(parts.names, n);
    assert w[i].key == live + n;
    forall j | i < j < |w| ensures w[j].key != w[i].key {
      if j == k && w[j].key == w[i].key {
        AppendCancels(live, MetadataName, n);
      }
    }
    ApplyPutsLastWins(map[], w, i);
  }

  /**
   * A committed transaction: with or without a backup, the folder holds
   * exactly the write action's objects and nothing outside the folder and its
   * backup prefix changed.
   */
  lemma CommittedStore(s0: Objects, s: Objects, folder: Key, writes: seq<PutRequest>, existed: bool, removed: bool)
    requires WritesUnder(writes, LivePrefix(folder))
    requires !existed ==> s == ApplyPuts(s0, writes) && Within(s0, LivePrefix(folder)) == map[]
    requires existed ==>
      var p := Pending(s0, folder, writes, Committed);
      s == if removed then Without(p, BackupPrefix(folder)) else p
    ensures Within(s, LivePrefix(folder)) == ApplyPuts(map[], writes)
    ensures Without(Without(s, LivePrefix(folder)), BackupPrefix(folder)) ==
            Without(Without(s0, LivePrefix(folder)), BackupPrefix(folder))
  {
    var live, bak := LivePrefix(folder), BackupPrefix(folder);
    LiveAndBackupApart(folder);
    if existed {
      var p := Pending(s0, folder, writes, Committed);
      CommitReplacesFolder(s0, folder, writes);
      RegionsOfWithout(p, live, bak);
    } else {
      ApplyPutsUnder(s0, writes, live);
    }
  }

  /** Once the backup is removed, nothing is left under the backup prefix. */
  lemma BackupRegionCleared(s: Objects, p: Objects, folder: Key)
    requires s == Without(p, BackupPrefix(folder))
    ensures Within(s, BackupPrefix(folder)) == map[]
  {
  }

  /** The write action of an accepted request, as `store_document` builds it. */
  function RequestWrites(documentUrl: string, parsed: Parts, timestamp: string, codecs: Codecs, services: Services): seq<PutRequest>
    requires parsed.Valid() && EntrypointName(parsed).Some?
  {
    var resolved := ResolvedParts(parsed);
    WriteAction(DocumentFolder(documentUrl, services), resolved,
                ManifestBody(ManifestOf(documentUrl, parsed, timestamp), codecs, services))
  }

  /**
   * `store_document` followed by `lambda_handler`'s exception handler.
   * `parsed` is the dictionary the parser returned and `report` the
   * transaction's flags; both are for the statement of the contract only.
   */
  method StoreDocument(store: Store, documentUrl: string, event: Event, codecs: Codecs, services: Services,
                       timestamp: string)
    returns (response: Response, ghost parsed: Parts, ghost report: TxReport)
    modifies store
    ensures !Accepted(event, codecs) ==>
      && response == Response(BadRequest, ErrorBody(Message(Rejection(event, codecs))))
      && store.objects == old(store.objects) && store.log == old(store.log)
    ensures Accepted(event, codecs) ==>
      && Collected(PartsOf(event, codecs).value, parsed)
      && EntrypointName(parsed).Some?
      && (response.statusCode == 200 <==> report.outcome == Committed)
      && (response.statusCode == 200 ==>
            response.body == StoredBody(StoredMessage, DocumentFolder(documentUrl, services),
                                        EntrypointName(parsed).value, ResolvedParts(parsed).names))
      && (response.statusCode != 200 ==> response == InternalError)
    // success replaces the folder by the files and the manifest, and touches nothing else
    ensures Accepted(event, codecs) && response.statusCode == 200 ==>
      var folder := DocumentFolder(documentUrl, services);
      && Within(store.objects, LivePrefix(folder)) ==
           ApplyPuts(map[], RequestWrites(documentUrl, parsed, timestamp, codecs, services))
      && Without(Without(store.objects, LivePrefix(folder)), BackupPrefix(folder)) ==
           Without(Without(old(store.objects), LivePrefix(folder)), BackupPrefix(folder))
    // a rejected request makes no store call; an accepted one ends as the fault schedule dictates,
    // with the transaction's flags as the folder and the schedule decide them
    ensures !Accepted(event, codecs) ==> store.calls == old(store.calls)
    ensures Accepted(event, codecs) ==>
      ReportFollowsSchedule(report, store.faults, old(store.calls), old(store.objects), store.calls,
                            DocumentFolder(documentUrl, services),
                            RequestWrites(documentUrl, parsed, timestamp, codecs, services))
    // with no store call raising, an accepted request is stored and its backup removed
    ensures Accepted(event, codecs) && (forall c: nat :: c >= old(store.calls) ==> c !in store.faults) ==>
      response.statusCode == 200 && report.backupRemoved == report.backupCreated
    ensures Accepted(event, codecs) && (forall c: nat :: c >= old(store.calls) ==> c !in store.faults) &&
            report.folderExisted ==>
      Within(store.objects, BackupPrefix(DocumentFolder(documentUrl, services))) == map[]
    // a failure after the backup, fully rolled back and cleaned up, leaves the store as it was
    ensures Accepted(event, codecs) && report.restored && report.backupRemoved &&
            Within(old(store.objects), BackupPrefix(DocumentFolder(documentUrl, services))) == map[] ==>
      store.objects == old(store.objects)
  {
    parsed := Empty();
    report := TxReport(Committed, false, false, false, false);
    var folder := DocumentsFolder + "/" + services.sha256Hex(documentUrl);
    var parseResult := ParseRequest(event, codecs);
    if parseResult.Failure? {
      return Response(BadRequest, ErrorBody(Message(parseResult.error))), parsed, report;
    }
    parsed := parseResult.value;
    var entrypoint, parts := ResolveEntrypoint(parseResult.value);
    if entrypoint.None? {
      // unreachable: parsing demands a `document` part
      assert false;
      return Response(400, ErrorBody("No document.html, document.txt, or document part found")), parsed, report;
    }
    var manifest := ManifestBody(Metadata(documentUrl, entrypoint.value, parts.names, timestamp), codecs, services);
    var writes := WriteAction(folder, parts, manifest);
    WritesStayInFolder(folder, parts, manifest);
    ghost var s0 := store.objects;
    var tx := BackupInCaseOfError(store, folder, writes);
    report := tx;
    if tx.outcome.Raised? {
      response := InternalError;
      if tx.restored && tx.backupRemoved && Within(s0, BackupPrefix(folder)) == map[] {
        RollbackRestoresFolder(s0, folder, writes, tx.outcome);
      }
      return;
    }
    assert writes[..|writes|] == writes;
    if tx.backupRemoved {
      BackupRegionCleared(store.objects, Pending(s0, folder, writes, Committed), folder);
    }
    CommittedStore(s0, store.objects, folder, writes, tx.folderExisted, tx.backupRemoved);
    response := Response(200, StoredBody(StoredMessage, folder, entrypoint.value, parts.names));
  }
}
