/** The client side: a SmartFile object whose methods update its fields in
    place, and the two local collections (SmartFile.files and Downloads). */
module Client {
  import opened Wrappers
  import opened SmartFileRecord
  import opened ChunkPlanner
  import opened StatusTracker
  import opened TransferEngine

  class SmartFile {
    var id: string
    var dirPath: string
    var name: Option<string>
    var mediaType: string
    var size: nat
    var data: Option<Bytes>
    var start: nat
    var end: nat
    var bytesUploaded: nat
    var bytesDownloaded: nat
    var status: string
    var uploadProgress: nat
    var downloadProgress: nat

    /** The object's fields as a value. */
    function Snapshot(): Record
      reads this
    {
      Record(id, dirPath, name, mediaType, size, data, start, end,
             bytesUploaded, bytesDownloaded, status, uploadProgress, downloadProgress)
    }

    /** new SmartFile(options). */
    constructor (opts: Options, freshId: string)
      ensures Snapshot() == Construct(opts, freshId)
    {
      id := OrElse(opts.id, freshId);
      dirPath := OrElse(opts.dirPath, "");
      name := opts.name;
      mediaType := OrElse(opts.mediaType, "unknown");
      size := DefaultZero(opts.size);
      data := opts.data;
      start := DefaultZero(opts.start);
      end := DefaultZero(opts.end);
      bytesUploaded := DefaultZero(opts.bytesUploaded);
      bytesDownloaded := DefaultZero(opts.bytesDownloaded);
      status := OrElse(opts.status, "");
      uploadProgress := DefaultZero(opts.uploadProgress);
      downloadProgress := DefaultZero(opts.downloadProgress);
    }

    /** rewind(). */
    method Rewind()
      modifies this
      ensures Snapshot() == Rewound(old(Snapshot()))
    {
      start := 0;
      end := 0;
      bytesUploaded := 0;
      uploadProgress := 0;
      downloadProgress := 0;
    }

    /** _setUStatus(err). */
    method SetUStatus(err: Option<string>)
      requires err.Some? || bytesUploaded == 0 || size > 0
      modifies this
      ensures Snapshot() == WithUploadStatus(old(Snapshot()), err)
    {
      if err.Some? {
        status := err.value;
        Rewind();
      } else {
        uploadProgress := Progress(bytesUploaded, size);
        status := UploadLabel(uploadProgress);
      }
    }

    /** _setDStatus(err). */
    method SetDStatus(err: Option<string>)
      requires err.Some? || bytesDownloaded == 0 || size > 0
      modifies this
      ensures Snapshot() == WithDownloadStatus(old(Snapshot()), err)
    {
      if err.Some? {
        status := err.value;
        Rewind();
      } else {
        downloadProgress := Progress(bytesDownloaded, size);
        status := DownloadLabel(downloadProgress);
      }
    }

    /** upload(method, callback): rewind, then one chunk call at a time, each
        made only once the previous one has completed. `replies` are the
        completions of the calls in order; `sent` are the calls made. */
    method Upload(replies: seq<Reply<()>>) returns (done: Completion, sent: seq<Request>)
      requires data.Some? && |data.value| == size
      modifies this
      ensures Run(Snapshot(), done, sent) == UploadRun(old(Snapshot()), replies)
    {
      Rewind();
      sent := [];
      var i := 0;
      while bytesUploaded < size
        invariant i <= |replies|
        invariant UploadSteady(Snapshot())
        invariant UploadRun(old(Snapshot()), replies) == AfterAll(sent, UploadChunks(Snapshot(), replies[i..]))
        decreases |replies| - i
      {
        ghost var sent0 := sent;
        var request, outcome := UploadChunk(replies[i..]);
        sent := sent + [request];
        if outcome.Some? {
          done := outcome.value;
          return;
        }
        assert replies[i..][1..] == replies[i + 1..];
        AfterAllSent(sent0, request, UploadChunks(Snapshot(), replies[i + 1..]));
        i := i + 1;
      }
      done := Completed;
    }

    /** uploadChunk(): move the window on, send its bytes, and handle the
        first of `rest`, the replies still to come. `outcome` is None when the
        chunk was acknowledged and the loop goes on. */
    method UploadChunk(rest: seq<Reply<()>>) returns (request: Request, outcome: Option<Completion>)
      requires UploadSteady(Snapshot()) && bytesUploaded < size
      modifies this
      ensures outcome.Some? ==> UploadChunks(old(Snapshot()), rest) == Run(Snapshot(), outcome.value, [request])
      ensures outcome.None? ==>
        && |rest| > 0 && UploadSteady(Snapshot())
        && UploadChunks(old(Snapshot()), rest) == AfterSent(request, UploadChunks(Snapshot(), rest[1..]))
    {
      ghost var cur := Snapshot();
      var whole := data;
      request := SendNextChunk();
      if |rest| == 0 {
        UploadStops(cur, rest);
        outcome := Some(Pending);
        return;
      }
      match rest[0]
      case Err(m) =>
        SetUStatus(Some(m));
        UploadStops(cur, rest);
        outcome := Some(Failed(m));
      case Ok(_) =>
        AcknowledgeChunk(whole);
        assert Snapshot() == Advanced(cur);
        UploadAckStep(cur, rest);
        outcome := None;
    }

    /** The first half of uploadChunk(): the window moves on and the buffer
        becomes the window's slice, which is sent. */
    method SendNextChunk() returns (request: Request)
      requires UploadSteady(Snapshot()) && bytesUploaded < size
      modifies this
      ensures var w := NextWindow(old(end), old(size), ChunkSize);
        && w.start < w.end
        && request == Request(w, old(data).value[w.start..w.end])
        && Snapshot() == old(Snapshot()).(start := w.start, end := w.end, data := Some(request.payload))
    {
      start := end;
      end := end + ChunkSize;
      if end > size {
        end := size;
      }
      if end - start > 0 {
        data := Some(data.value[start..end]);
      }
      request := Request(Window(start, end), data.value);
    }

    /** The Ok handler of uploadChunk(): the counter grows by the slice's
        length, the status is derived and the full buffer is put back. */
    method AcknowledgeChunk(whole: Option<Bytes>)
      requires data.Some? && size > 0
      modifies this
      ensures Snapshot() == WithUploadStatus(old(Snapshot()).(bytesUploaded := old(bytesUploaded) + |old(data).value|), None).(data := whole)
    {
      bytesUploaded := bytesUploaded + |data.value|;
      SetUStatus(None);
      data := whole;
    }

    /** download(callback): derive the status, then wait for the metadata
        call. */
    method Download(meta: Reply<Meta>, replies: seq<Reply<Bytes>>) returns (done: Completion, requested: seq<Window>)
      requires bytesDownloaded == 0 || size > 0
      modifies this
      ensures Run(Snapshot(), done, requested) == DownloadRun(old(Snapshot()), meta, replies)
    {
      SetDStatus(None);
      done, requested := ReceiveMetadata(meta, replies);
    }

    /** The completion handler of download()'s metadata call: on an error the
        callback gets it; otherwise size and type are taken from the reply,
        the buffer is emptied and the chunks are fetched one call at a time. */
    method ReceiveMetadata(meta: Reply<Meta>, replies: seq<Reply<Bytes>>) returns (done: Completion, requested: seq<Window>)
      modifies this
      ensures Run(Snapshot(), done, requested) == AfterMetadata(old(Snapshot()), meta, replies)
    {
      requested := [];
      if meta.Err? {
        done := Failed(meta.message);
        return;
      }
      size := meta.value.size;
      mediaType := meta.value.mediaType;
      data := Some([]);
      var i := 0;
      while bytesDownloaded < size
        invariant i <= |replies|
        invariant data.Some?
        invariant AfterMetadata(old(Snapshot()), meta, replies) == AfterAll(requested, DownloadChunks(Snapshot(), replies[i..]))
        decreases |replies| - i
      {
        ghost var requested0 := requested;
        var window, outcome := DownloadChunk(replies[i..]);
        requested := requested + [window];
        if outcome.Some? {
          done := outcome.value;
          return;
        }
        assert replies[i..][1..] == replies[i + 1..];
        AfterAllSent(requested0, window, DownloadChunks(Snapshot(), replies[i + 1..]));
        i := i + 1;
      }
      done := Completed;
    }

    /** downloadChunk(): move the window on, ask for its bytes, and handle the
        first of `rest`, the replies still to come. `outcome` is None when the
        bytes arrived and the loop goes on. */
    method DownloadChunk(rest: seq<Reply<Bytes>>) returns (window: Window, outcome: Option<Completion>)
      requires data.Some? && bytesDownloaded < size
      modifies this
      ensures outcome.Some? ==> DownloadChunks(old(Snapshot()), rest) == Run(Snapshot(), outcome.value, [window])
      ensures outcome.None? ==>
        && |rest| > 0 && data.Some?
        && DownloadChunks(old(Snapshot()), rest) == AfterSent(window, DownloadChunks(Snapshot(), rest[1..]))
    {
      ghost var cur := Snapshot();
      window := RequestNextChunk();
      if |rest| == 0 {
        DownloadStops(cur, rest);
        outcome := Some(Pending);
        return;
      }
      match rest[0]
      case Err(m) =>
        SetDStatus(Some(m));
        DownloadStops(cur, rest);
        outcome := Some(Silent);
      case Ok(bytes) =>
        ReceiveChunk(bytes);
        assert Snapshot() == Fetched(cur, bytes);
        DownloadAckStep(cur, rest);
        outcome := None;
    }

    /** The first half of downloadChunk(): the window moves on and is asked
        for. */
    method RequestNextChunk() returns (window: Window)
      modifies this
      ensures window == NextWindow(old(end), old(size), ChunkSize)
      ensures Snapshot() == old(Snapshot()).(start := window.start, end := window.end)
    {
      start := end;
      end := end + ChunkSize;
      if end > size {
        end := size;
      }
      window := Window(start, end);
    }

    /** The Ok handler of downloadChunk(): the counter grows by the chunk's
        length, the chunk is appended to the buffer and the status derived. */
    method ReceiveChunk(bytes: Bytes)
      requires data.Some? && size > 0
      modifies this
      ensures Snapshot() == WithDownloadStatus(old(Snapshot()).(bytesDownloaded := old(bytesDownloaded) + |bytes|,
                                                                 data := Some(old(data).value + bytes)), None)
    {
      bytesDownloaded := bytesDownloaded + |bytes|;
      data := Some(data.value + bytes);
      SetDStatus(None);
    }
  }

  /** Where a download is kept: its directory and its file name. */
  datatype Locator = Locator(dirPath: string, name: string)

  /** SmartFile.download's lookup-or-insert: the record already kept for the
      locator, or a new one (in its state after download()'s synchronous
      first step) that is inserted and whose transfer starts. */
  function LookupOrInsert(downloads: map<Locator, Record>, loc: Locator, freshId: string): (r: (map<Locator, Record>, Record, bool))
    requires freshId != ""
    ensures loc in r.0 && r.0[loc] == r.1
    ensures r.2 <==> loc !in downloads
    ensures !r.2 ==> r.0 == downloads
    ensures r.2 ==> r.0 == downloads[loc := r.1] && r.1.dirPath == loc.dirPath && r.1.name == Some(loc.name)
  {
    if loc in downloads then (downloads, downloads[loc], false)
    else
      var created := Construct(NoOptions.(dirPath := Some(loc.dirPath), name := Some(loc.name)), freshId);
      var shown := WithDownloadStatus(created, None);
      (downloads[loc := shown], shown, true)
  }

  /** A second download of the same file returns the record the first one
      stored and starts no transfer, whatever id it would have used. */
  lemma SecondDownloadReuses(downloads: map<Locator, Record>, loc: Locator, id1: string, id2: string)
    requires id1 != "" && id2 != ""
    ensures var (m1, r1, started1) := LookupOrInsert(downloads, loc, id1);
      var (m2, r2, started2) := LookupOrInsert(m1, loc, id2);
      r2 == r1 && !started2 && m2 == m1
  {
  }

  /** A newly created download record has the requested location, a fresh
      id, type "unknown", nothing transferred, and status "Selected". */
  lemma NewDownloadRecord(downloads: map<Locator, Record>, loc: Locator, freshId: string)
    requires freshId != "" && loc !in downloads
    ensures var r := LookupOrInsert(downloads, loc, freshId).1;
      && r.id == freshId && r.mediaType == "unknown" && r.size == 0 && r.data == None
      && r.bytesDownloaded == 0 && r.downloadProgress == 0 && r.status == "Selected"
  {
  }

  /** The client's local collections. */
  class Index {
    /** SmartFile.files: the records read for upload, by id. */
    var files: map<string, Record>
    /** Downloads: the records being or having been downloaded, by location. */
    var downloads: map<Locator, Record>

    /** Every kept download sits under its own location. */
    ghost predicate Valid()
      reads this
    {
      forall loc :: loc in downloads ==>
        downloads[loc].dirPath == loc.dirPath && downloads[loc].name == Some(loc.name)
    }

    constructor (files: map<string, Record>)
      ensures this.files == files && downloads == map[] && Valid()
    {
      this.files := files;
      downloads := map[];
    }

    /** SmartFile.download(fileName, dirPath, callback). Without a directory
        argument the directory is "". When no record is kept for the file, a
        new one is made, inserted, and its download() starts: the object
        returned as `file` is the one whose ReceiveMetadata runs when the
        metadata call completes. The record returned as `shown` is the copy
        kept in Downloads at the time of return. */
    method Download(fileName: string, dirPath: Option<string>, freshId: string) returns (shown: Record, file: SmartFile?)
      requires Valid() && freshId != ""
      modifies this
      ensures Valid() && files == old(files)
      ensures var loc := Locator(dirPath.GetOr(""), fileName);
        (downloads, shown, file != null) == LookupOrInsert(old(downloads), loc, freshId)
      ensures file != null ==> fresh(file) && file.Snapshot() == shown
    {
      var loc := Locator(dirPath.GetOr(""), fileName);
      if loc in downloads {
        shown := downloads[loc];
        file := null;
        return;
      }
      ghost var before := downloads;
      file := new SmartFile(NoOptions.(dirPath := Some(loc.dirPath), name := Some(fileName)), freshId);
      var created := file.Snapshot();
      downloads := downloads[loc := created];
      file.SetDStatus(None);
      downloads := downloads[loc := file.Snapshot()];
      shown := downloads[loc];
      assert downloads == before[loc := shown];
      assert shown == WithDownloadStatus(created, None);
    }

    /** delete(callback): the record leaves SmartFile.files at once; the
        remote delete's reply only decides what the callback gets. Downloads
        is not touched. */
    method Delete(file: SmartFile, reply: Reply<()>) returns (err: Option<string>)
      modifies this
      ensures files == old(files) - {file.id}
      ensures downloads == old(downloads) && (Valid() <==> old(Valid()))
      ensures err == if reply.Err? then Some(reply.message) else None
    {
      files := files - {file.id};
      err := if reply.Err? then Some(reply.message) else None;
    }
  }
}
