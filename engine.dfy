/** The upload and download loops as functions of the record they start from
    and of the replies the remote calls give, one reply per call, in order.
    The loops are strictly sequential: a chunk's call is made only after the
    previous one has completed, so a transfer is fully described by the list
    of replies. When the replies run out, the last call is still in flight. */
module TransferEngine {
  import opened Wrappers
  import opened SmartFileRecord
  import opened ChunkPlanner
  import opened StatusTracker

  /** How far a transfer got, and how its callback was reached. */
  datatype Completion =
    | Completed               // the callback ran with no error
    | Failed(message: string) // the callback ran with this error
    | Silent                  // a download chunk failed: status set, no callback
    | Pending                 // the last remote call has not completed

  /** One upload call: the window and the bytes sent for it. */
  datatype Request = Request(window: Window, payload: Bytes)

  /** The reply to the download metadata call. */
  datatype Meta = Meta(size: nat, mediaType: string)

  /** The record a transfer leaves, how it ended, and the calls it made. */
  datatype Run<Q> = Run(record: Record, done: Completion, sent: seq<Q>)

  function AfterSent<Q>(first: Q, run: Run<Q>): Run<Q> {
    run.(sent := [first] + run.sent)
  }

  function AfterAll<Q>(earlier: seq<Q>, run: Run<Q>): Run<Q> {
    run.(sent := earlier + run.sent)
  }

  /** Calls made before a run's calls can be joined one at a time. */
  lemma AfterAllSent<Q>(earlier: seq<Q>, first: Q, run: Run<Q>)
    ensures AfterAll(earlier, AfterSent(first, run)) == AfterAll(earlier + [first], run)
  {
    assert earlier + ([first] + run.sent) == earlier + [first] + run.sent;
  }

  /** The record holds the whole buffer to upload and its window is inside it. */
  predicate HoldsWholeBuffer(r: Record) {
    r.data.Some? && |r.data.value| == r.size && r.end <= r.size
  }

  // ---------------------------------------------------------------------
  // Upload

  /** uploadChunk(), from the record as it is when it runs. */
  function UploadChunks(r: Record, replies: seq<Reply<()>>): Run<Request>
    requires HoldsWholeBuffer(r)
    decreases |replies|
  {
    if r.bytesUploaded >= r.size then Run(r, Completed, [])
    else
      var w := NextWindow(r.end, r.size, ChunkSize);
      var whole := r.data.value;
      var payload := if w.end - w.start > 0 then whole[w.start..w.end] else whole;
      var inFlight := r.(start := w.start, end := w.end, data := Some(payload));
      var request := Request(w, payload);
      if |replies| == 0 then Run(inFlight, Pending, [request])
      else
        match replies[0]
        case Err(m) => Run(WithUploadStatus(inFlight, Some(m)), Failed(m), [request])
        case Ok(_) =>
          var acked := inFlight.(bytesUploaded := r.bytesUploaded + |payload|);
          AfterSent(request, UploadChunks(WithUploadStatus(acked, None).(data := r.data), replies[1..]))
  }

  /** upload(): rewind, then run the chunk loop. The buffer is the whole file
      read from disk, so its length is the size. */
  function UploadRun(r: Record, replies: seq<Reply<()>>): Run<Request>
    requires r.data.Some? && |r.data.value| == r.size
  {
    UploadChunks(Rewound(r), replies)
  }

  /** A record in the middle of a successful upload: the buffer is whole, the
      counter is where the last window ended, and the percentage matches it. */
  predicate UploadSteady(r: Record) {
    && HoldsWholeBuffer(r)
    && r.bytesUploaded == r.end
    && r.uploadProgress == Progress(r.bytesUploaded, r.size)
  }

  /** The record after an Ok reply to the chunk a steady record sends. */
  function Advanced(r: Record): Record
    requires UploadSteady(r) && r.bytesUploaded < r.size
  {
    var w := NextWindow(r.end, r.size, ChunkSize);
    WithUploadStatus(r.(start := w.start, end := w.end, bytesUploaded := w.end), None)
  }

  /** One acknowledged chunk: the planned window's slice is sent, the counter
      moves to the window's end and the record stays steady. */
  lemma UploadAckStep(r: Record, replies: seq<Reply<()>>)
    requires UploadSteady(r) && r.bytesUploaded < r.size
    requires |replies| > 0 && replies[0].Ok?
    ensures var w := NextWindow(r.end, r.size, ChunkSize);
      && UploadSteady(Advanced(r))
      && Advanced(r).end == w.end > r.end
      && Plan(r.end, r.size, ChunkSize) == [w] + Plan(w.end, r.size, ChunkSize)
      && UploadChunks(r, replies) ==
           AfterSent(Request(w, r.data.value[w.start..w.end]), UploadChunks(Advanced(r), replies[1..]))
  {
    var w := NextWindow(r.end, r.size, ChunkSize);
    assert Advanced(r) == WithUploadStatus(r.(start := w.start, end := w.end,
      data := Some(r.data.value[w.start..w.end]), bytesUploaded := r.bytesUploaded + (w.end - w.start)), None).(data := r.data);
  }

  /** Every upload call asks for the next planned window and sends exactly
      that window's bytes of the buffer; every call but the last was answered
      Ok, and at most one call goes past the replies given. */
  lemma UploadFollowsPlan(r: Record, replies: seq<Reply<()>>)
    requires UploadSteady(r)
    ensures var run := UploadChunks(r, replies);
      var ws := Plan(r.end, r.size, ChunkSize);
      && |run.sent| <= |ws|
      && |run.sent| <= |replies| + 1
      && (forall j :: 0 <= j < |run.sent| ==>
            run.sent[j].window == ws[j] &&
            run.sent[j].payload == r.data.value[ws[j].start..ws[j].end])
      && (forall j :: 0 <= j < |run.sent| - 1 ==> replies[j].Ok?)
  {
    UploadSendsPlan(r, replies);
    UploadWaitsForOk(r, replies);
  }

  /** The upload calls are the planned windows with their slices, in order. */
  lemma {:induction false} UploadSendsPlan(r: Record, replies: seq<Reply<()>>)
    requires UploadSteady(r)
    ensures var run := UploadChunks(r, replies);
      var ws := Plan(r.end, r.size, ChunkSize);
      && |run.sent| <= |ws|
      && (forall j :: 0 <= j < |run.sent| ==>
            run.sent[j].window == ws[j] &&
            run.sent[j].payload == r.data.value[ws[j].start..ws[j].end])
    decreases |replies|
  {
    if !(r.bytesUploaded < r.size && |replies| > 0 && replies[0].Ok?) {
      UploadStops(r, replies);
    } else {
      UploadAckStep(r, replies);
      var next := Advanced(r);
      UploadSendsPlan(next, replies[1..]);
      var run := UploadChunks(r, replies);
      var rest := UploadChunks(next, replies[1..]);
      var ws := Plan(r.end, r.size, ChunkSize);
      var ws' := Plan(next.end, r.size, ChunkSize);
      forall j | 0 <= j < |run.sent|
        ensures run.sent[j].window == ws[j] && run.sent[j].payload == r.data.value[ws[j].start..ws[j].end]
      {
        if j > 0 { assert run.sent[j] == rest.sent[j - 1] && ws[j] == ws'[j - 1]; }
      }
    }
  }

  /** Each call but the last was answered Ok, and at most one call goes past
      the replies given. */
  lemma {:induction false} UploadWaitsForOk(r: Record, replies: seq<Reply<()>>)
    requires UploadSteady(r)
    ensures var run := UploadChunks(r, replies);
      && |run.sent| <= |replies| + 1
      && (forall j :: 0 <= j < |run.sent| - 1 ==> replies[j].Ok?)
    decreases |replies|
  {
    if !(r.bytesUploaded < r.size && |replies| > 0 && replies[0].Ok?) {
      UploadStops(r, replies);
    } else {
      UploadAckStep(r, replies);
      UploadWaitsForOk(Advanced(r), replies[1..]);
      var run := UploadChunks(r, replies);
      forall j | 0 <= j < |run.sent| - 1 ensures replies[j].Ok? {
        if j > 0 { assert replies[j] == replies[1..][j - 1]; }
      }
    }
  }



  /** The first `n` replies exist and are all Ok. */
  predicate AllOk<T>(replies: seq<Reply<T>>, n: nat) {
    |replies| >= n && forall j :: 0 <= j < n ==> replies[j].Ok?
  }

  lemma AllOkStep<T>(replies: seq<Reply<T>>, n: nat)
    requires |replies| > 0
    ensures AllOk(replies, n + 1) <==> replies[0].Ok? && AllOk(replies[1..], n)
  {
    if replies[0].Ok? && AllOk(replies[1..], n) {
      forall j | 0 <= j < n + 1 ensures replies[j].Ok? {
        if j > 0 { assert replies[j] == replies[1..][j - 1]; }
      }
    }
  }

  /** An upload completes exactly when every planned window got an Ok reply.
      The counter then equals the size, the whole buffer is back in place,
      the percentage is 100 (0 for an empty file) and the status is
      "Uploaded" (unchanged for an empty file, which makes no call at all). */
  lemma {:induction false} UploadCompletes(r: Record, replies: seq<Reply<()>>)
    requires UploadSteady(r)
    ensures var run := UploadChunks(r, replies);
      var ws := Plan(r.end, r.size, ChunkSize);
      var rec := run.record;
      && (run.done == Completed <==> AllOk(replies, |ws|))
      && (run.done.Completed? ==>
            && |run.sent| == |ws|
            && rec.bytesUploaded == rec.end == r.size
            && rec.data == r.data
            && rec.uploadProgress == Progress(r.size, r.size)
            && rec.status == (if ws == [] then r.status else "Uploaded"))
    decreases |replies|
  {
    var ws := Plan(r.end, r.size, ChunkSize);
    if !(r.bytesUploaded < r.size && |replies| > 0 && replies[0].Ok?) {
      UploadStops(r, replies);
    } else {
      AllOkStep(replies, |ws| - 1);
      var next := Advanced(r);
      UploadAckStep(r, replies);
      UploadCompletes(next, replies[1..]);
      if next.end == r.size {
        ProgressComplete(r.size);
      }
    }
  }


  /** On an error the status is the error text, the record is rewound and the
      buffer is left as the failed chunk's slice; the failing reply is the one
      to the last call. */
  lemma UploadFails(r: Record, replies: seq<Reply<()>>)
    requires UploadSteady(r)
    ensures var run := UploadChunks(r, replies);
      var ws := Plan(r.end, r.size, ChunkSize);
      run.done.Failed? ==>
        && 1 <= |run.sent| <= |replies| && |run.sent| <= |ws|
        && replies[|run.sent| - 1] == Err(run.done.message)
        && run.record == Rewound(r).(status := run.done.message,
             data := Some(r.data.value[ws[|run.sent| - 1].start..ws[|run.sent| - 1].end]))
  {
    UploadFollowsPlan(r, replies);
    UploadFailsLast(r, replies);
  }

  /** A failed upload's record is the starting one rewound, with the error as
      status and the last call's payload as buffer. */
  lemma {:induction false} UploadFailsLast(r: Record, replies: seq<Reply<()>>)
    requires UploadSteady(r)
    ensures var run := UploadChunks(r, replies);
      run.done.Failed? ==>
        && 1 <= |run.sent| <= |replies|
        && replies[|run.sent| - 1] == Err(run.done.message)
        && run.record == Rewound(r).(status := run.done.message,
             data := Some(run.sent[|run.sent| - 1].payload))
    decreases |replies|
  {
    if !(r.bytesUploaded < r.size && |replies| > 0 && replies[0].Ok?) {
      UploadStops(r, replies);
    } else {
      UploadAckStep(r, replies);
      var next := Advanced(r);
      UploadFailsLast(next, replies[1..]);
      var rest := UploadChunks(next, replies[1..]);
      if rest.done.Failed? {
        assert replies[|rest.sent|] == replies[1..][|rest.sent| - 1];
        assert Rewound(next) == Rewound(r).(status := next.status);
      }
    }
  }


  /** When the loop does not go on past its first call: with nothing left it
      completes at once with no call; otherwise it sends the first planned
      window's slice and either waits for the reply or, on an error, rewinds
      with the error as status and the slice as buffer. */
  lemma UploadStops(r: Record, replies: seq<Reply<()>>)
    requires UploadSteady(r)
    requires !(r.bytesUploaded < r.size && |replies| > 0 && replies[0].Ok?)
    ensures var run := UploadChunks(r, replies);
      var ws := Plan(r.end, r.size, ChunkSize);
      && (r.bytesUploaded >= r.size ==> ws == [] && run == Run(r, Completed, []))
      && (r.bytesUploaded < r.size ==> (ws != [] && ws[0] == NextWindow(r.end, r.size, ChunkSize) &&
            var slice := r.data.value[ws[0].start..ws[0].end];
            && run.sent == [Request(ws[0], slice)]
            && (|replies| == 0 ==> (run.done == Pending &&
                  run.record == r.(start := ws[0].start, end := ws[0].end, data := Some(slice))))
            && (|replies| > 0 ==> (run.done == Failed(replies[0].message) &&
                  run.record == Rewound(r).(status := replies[0].message, data := Some(slice))))))
  {
    if r.bytesUploaded < r.size {
      var w := NextWindow(r.end, r.size, ChunkSize);
      assert Plan(r.end, r.size, ChunkSize) == [w] + Plan(w.end, r.size, ChunkSize);
    }
  }

  /** Until an error, only the window, the counter, the buffer, the upload
      percentage and the status change; the counter and the percentage never
      go down, the percentage stays at most 100, and while a call is in flight the counter is at the start of
      its window. */
  lemma {:induction false} UploadProgresses(r: Record, replies: seq<Reply<()>>)
    requires UploadSteady(r)
    ensures var run := UploadChunks(r, replies);
      var rec := run.record;
      && !run.done.Silent?
      && (run.done.Pending? ==>
            |run.sent| == |replies| + 1 &&
            rec.bytesUploaded == rec.start < rec.end <= r.size &&
            rec.uploadProgress == Progress(rec.bytesUploaded, r.size))
      && (!run.done.Failed? ==>
            && rec == r.(start := rec.start, end := rec.end, data := rec.data,
                         bytesUploaded := rec.bytesUploaded,
                         uploadProgress := rec.uploadProgress, status := rec.status)
            && rec.bytesUploaded >= r.bytesUploaded
            && r.uploadProgress <= rec.uploadProgress <= 100)
    decreases |replies|
  {
    ProgressAtMostHundred(r.bytesUploaded, r.size);
    if !(r.bytesUploaded < r.size && |replies| > 0 && replies[0].Ok?) {
      UploadStops(r, replies);
    } else {
      var next := Advanced(r);
      UploadAckStep(r, replies);
      ProgressMonotone(r.bytesUploaded, next.bytesUploaded, r.size);
      UploadProgresses(next, replies[1..]);
    }
  }


  /** upload() from any loaded record: the calls follow the plan from offset
      0; an empty file completes at once with no call, percentage 0 and its
      status untouched; a complete non-empty upload ends at 100%, "Uploaded",
      with the whole buffer in place. */
  lemma UploadFromStart(r: Record, replies: seq<Reply<()>>)
    requires r.data.Some? && |r.data.value| == r.size
    ensures var run := UploadRun(r, replies);
      var ws := Plan(0, r.size, ChunkSize);
      && (forall j :: 0 <= j < |run.sent| ==>
            j < |ws| && run.sent[j].window == ws[j] &&
            run.sent[j].payload == r.data.value[ws[j].start..ws[j].end])
      && (r.size == 0 ==> run == Run(Rewound(r), Completed, []))
      && (run.done.Completed? && r.size > 0 ==>
            run.record.status == "Uploaded" && run.record.uploadProgress == 100 &&
            run.record.bytesUploaded == r.size && run.record.data == r.data)
  {
    var s := Rewound(r);
    UploadFollowsPlan(s, replies);
    UploadCompletes(s, replies);
    if r.size > 0 { ProgressComplete(r.size); }
  }

  // ---------------------------------------------------------------------
  // Download

  /** The bytes of the Ok replies, joined in order. */
  function Received(replies: seq<Reply<Bytes>>): Bytes {
    if replies == [] then []
    else (if replies[0].Ok? then replies[0].value else []) + Received(replies[1..])
  }

  lemma ReceivedStep(replies: seq<Reply<Bytes>>, k: nat)
    requires 0 < k <= |replies| && replies[0].Ok?
    ensures Received(replies[..k]) == replies[0].value + Received(replies[1..][..k - 1])
  {
    assert replies[..k][1..] == replies[1..][..k - 1];
  }

  /** downloadChunk(), from the record as it is when it runs. */
  function DownloadChunks(r: Record, replies: seq<Reply<Bytes>>): Run<Window>
    requires r.data.Some?
    decreases |replies|
  {
    if r.bytesDownloaded < r.size then
      var w := NextWindow(r.end, r.size, ChunkSize);
      var inFlight := r.(start := w.start, end := w.end);
      if |replies| == 0 then Run(inFlight, Pending, [w])
      else
        match replies[0]
        case Err(m) => Run(WithDownloadStatus(inFlight, Some(m)), Silent, [w])
        case Ok(bytes) =>
          var got := inFlight.(bytesDownloaded := r.bytesDownloaded + |bytes|,
                               data := Some(r.data.value + bytes));
          AfterSent(w, DownloadChunks(WithDownloadStatus(got, None), replies[1..]))
    else Run(r, Completed, [])
  }

  /** download(): the status is derived first, then the metadata call's
      reply either ends the transfer through the callback or sets the size
      and type, empties the buffer and starts the chunk loop. */
  function DownloadRun(r: Record, meta: Reply<Meta>, replies: seq<Reply<Bytes>>): Run<Window>
    requires r.bytesDownloaded == 0 || r.size > 0
  {
    AfterMetadata(WithDownloadStatus(r, None), meta, replies)
  }

  /** The completion handler of the metadata call. */
  function AfterMetadata(r: Record, meta: Reply<Meta>, replies: seq<Reply<Bytes>>): Run<Window> {
    match meta
    case Err(m) => Run(r, Failed(m), [])
    case Ok(info) =>
      DownloadChunks(r.(size := info.size, mediaType := info.mediaType, data := Some([])), replies)
  }

  /** The record after an Ok reply carrying `bytes` to the next chunk call. */
  function Fetched(r: Record, bytes: Bytes): Record
    requires r.data.Some? && r.bytesDownloaded < r.size
  {
    var w := NextWindow(r.end, r.size, ChunkSize);
    WithDownloadStatus(r.(start := w.start, end := w.end,
      bytesDownloaded := r.bytesDownloaded + |bytes|, data := Some(r.data.value + bytes)), None)
  }

  lemma DownloadAckStep(r: Record, replies: seq<Reply<Bytes>>)
    requires r.data.Some? && r.bytesDownloaded < r.size
    requires |replies| > 0 && replies[0].Ok?
    ensures DownloadChunks(r, replies) ==
      AfterSent(NextWindow(r.end, r.size, ChunkSize), DownloadChunks(Fetched(r, replies[0].value), replies[1..]))
    ensures Fetched(r, replies[0].value).data == Some(r.data.value + replies[0].value)
    ensures Fetched(r, replies[0].value).bytesDownloaded == r.bytesDownloaded + |replies[0].value|
  {
  }

  /** The number of replies a chunk loop consumed with an Ok. */
  function Consumed<Q>(run: Run<Q>): int {
    if run.done.Completed? then |run.sent| else |run.sent| - 1
  }

  /** Whatever the replies, the buffer is what it held followed by the bytes
      of the Ok replies in order, and the counter grew by their length. Every
      call but an unanswered or failed last one was answered Ok. */
  lemma DownloadAppends(r: Record, replies: seq<Reply<Bytes>>)
    requires r.data.Some?
    ensures var run := DownloadChunks(r, replies);
      var k := Consumed(run);
      && !run.done.Failed?
      && 0 <= k <= |replies|
      && AllOk(replies, k)
      && run.record.data == Some(r.data.value + Received(replies[..k]))
      && run.record.bytesDownloaded == r.bytesDownloaded + |Received(replies[..k])|
      && (run.done.Completed? ==> run.record.bytesDownloaded >= r.size)
      && (run.done.Pending? ==> k == |replies|)
  {
    DownloadConsumes(r, replies);
    DownloadCollects(r, replies);
  }

  /** The replies the chunk loop consumed are a prefix of Ok replies; it
      stops on the first error, at the end of the replies, or once the
      counter reaches the size. */
  lemma {:induction false} DownloadConsumes(r: Record, replies: seq<Reply<Bytes>>)
    requires r.data.Some?
    ensures var run := DownloadChunks(r, replies);
      var k := Consumed(run);
      && !run.done.Failed?
      && 0 <= k <= |replies|
      && AllOk(replies, k)
      && (run.done.Completed? ==> run.record.bytesDownloaded >= r.size)
      && (run.done.Pending? ==> k == |replies|)
    decreases |replies|
  {
    if !(r.bytesDownloaded < r.size && |replies| > 0 && replies[0].Ok?) {
      DownloadStops(r, replies);
    } else {
      var next := Fetched(r, replies[0].value);
      DownloadAckStep(r, replies);
      DownloadConsumes(next, replies[1..]);
      DownloadCountGrows(next, replies[1..]);
      var rest := DownloadChunks(next, replies[1..]);
      assert Consumed(DownloadChunks(r, replies)) == Consumed(rest) + 1;
      AllOkStep(replies, Consumed(rest));
    }
  }

  /** The chunk loop never lowers the download counter. */
  lemma {:induction false} DownloadCountGrows(r: Record, replies: seq<Reply<Bytes>>)
    requires r.data.Some?
    ensures DownloadChunks(r, replies).record.bytesDownloaded >= r.bytesDownloaded
    decreases |replies|
  {
    if !(r.bytesDownloaded < r.size && |replies| > 0 && replies[0].Ok?) {
      DownloadStops(r, replies);
    } else {
      DownloadAckStep(r, replies);
      DownloadCountGrows(Fetched(r, replies[0].value), replies[1..]);
    }
  }

  /** Short of a chunk error, which rewinds, the chunk loop never lowers the
      download percentage. */
  lemma {:induction false} DownloadProgressGrows(r: Record, replies: seq<Reply<Bytes>>)
    requires r.data.Some? && (r.bytesDownloaded == 0 || r.size > 0)
    requires r.downloadProgress == Progress(r.bytesDownloaded, r.size)
    ensures var run := DownloadChunks(r, replies);
      !run.done.Silent? ==> run.record.downloadProgress >= r.downloadProgress
    decreases |replies|
  {
    if !(r.bytesDownloaded < r.size && |replies| > 0 && replies[0].Ok?) {
      DownloadStops(r, replies);
    } else {
      DownloadAckStep(r, replies);
      var next := Fetched(r, replies[0].value);
      ProgressMonotone(r.bytesDownloaded, next.bytesDownloaded, r.size);
      DownloadProgressGrows(next, replies[1..]);
    }
  }

  /** The buffer gains the consumed replies' bytes in order, and the counter
      their total length. */
  lemma {:induction false} DownloadCollects(r: Record, replies: seq<Reply<Bytes>>)
    requires r.data.Some?
    ensures var run := DownloadChunks(r, replies);
      var k := Consumed(run);
      && 0 <= k <= |replies|
      && run.record.data == Some(r.data.value + Received(replies[..k]))
      && run.record.bytesDownloaded == r.bytesDownloaded + |Received(replies[..k])|
    decreases |replies|
  {
    if !(r.bytesDownloaded < r.size && |replies| > 0 && replies[0].Ok?) {
      DownloadStops(r, replies);
      assert replies[..0] == [];
      assert r.data.value + Received(replies[..0]) == r.data.value;
    } else {
      var bytes := replies[0].value;
      var next := Fetched(r, bytes);
      DownloadAckStep(r, replies);
      DownloadCollects(next, replies[1..]);
      var rest := DownloadChunks(next, replies[1..]);
      var k' := Consumed(rest);
      assert Consumed(DownloadChunks(r, replies)) == k' + 1;
      ReceivedStep(replies, k' + 1);
      assert r.data.value + bytes + Received(replies[1..][..k']) ==
             r.data.value + (bytes + Received(replies[1..][..k']));
    }
  }


  /** When the loop does not go on past its first call, no Ok reply has been
      consumed and the buffer and the counter are as they were. */
  lemma DownloadStops(r: Record, replies: seq<Reply<Bytes>>)
    requires r.data.Some?
    requires !(r.bytesDownloaded < r.size && |replies| > 0 && replies[0].Ok?)
    ensures var run := DownloadChunks(r, replies);
      && Consumed(run) == 0
      && !run.done.Failed?
      && run.record.data == r.data
      && run.record.bytesDownloaded == r.bytesDownloaded
      && (run.done.Completed? ==> r.bytesDownloaded >= r.size)
      && (run.done.Pending? ==> |replies| == 0)
      && (r.bytesDownloaded < r.size ==>
            var w := NextWindow(r.end, r.size, ChunkSize);
            && run.sent == [w]
            && (|replies| == 0 ==> run.done == Pending && run.record == r.(start := w.start, end := w.end))
            && (|replies| > 0 ==> (run.done == Silent &&
                  run.record == WithDownloadStatus(r.(start := w.start, end := w.end), Some(replies[0].message)))))
  {
    if r.bytesDownloaded < r.size && |replies| > 0 {
      var w := NextWindow(r.end, r.size, ChunkSize);
      assert DownloadChunks(r, replies) ==
        Run(WithDownloadStatus(r.(start := w.start, end := w.end), Some(replies[0].message)), Silent, [w]);
    }
  }

  /** A chunk error sets the status to its text and rewinds, without calling
      back; the download counter and the bytes received so far stay. */
  lemma {:induction false} DownloadChunkError(r: Record, replies: seq<Reply<Bytes>>)
    requires r.data.Some?
    ensures var run := DownloadChunks(r, replies);
      run.done.Silent? ==>
        && 1 <= |run.sent| <= |replies|
        && replies[|run.sent| - 1].Err?
        && run.record == Rewound(run.record).(status := replies[|run.sent| - 1].message)
    decreases |replies|
  {
    if r.bytesDownloaded < r.size && |replies| > 0 && replies[0].Ok? {
      DownloadAckStep(r, replies);
      DownloadChunkError(Fetched(r, replies[0].value), replies[1..]);
      var rest := DownloadChunks(Fetched(r, replies[0].value), replies[1..]);
      if rest.done.Silent? {
        assert replies[|rest.sent|] == replies[1..][|rest.sent| - 1];
      }
    }
  }

  /** The replies an honest server gives: each Ok reply to a planned window
      holds as many bytes as the window is long. */
  predicate Honest(replies: seq<Reply<Bytes>>, ws: seq<Window>) {
    forall j :: 0 <= j < |replies| && j < |ws| && replies[j].Ok? ==>
      |replies[j].value| == ws[j].end - ws[j].start
  }

  /** With an honest server, a download whose counter matches its window asks
      for the planned windows in order and completes exactly when every one
      of them got an Ok reply; the counter then equals the size and, for a
      non-empty file, the percentage is 100 and the status "Downloaded". */
  lemma {:induction false} DownloadFollowsPlan(r: Record, replies: seq<Reply<Bytes>>)
    requires r.data.Some? && r.bytesDownloaded == r.end <= r.size
    requires Honest(replies, Plan(r.end, r.size, ChunkSize))
    ensures var run := DownloadChunks(r, replies);
      var ws := Plan(r.end, r.size, ChunkSize);
      && |run.sent| <= |ws|
      && run.sent == ws[..|run.sent|]
      && (run.done == Completed <==> AllOk(replies, |ws|))
      && (run.done.Completed? ==>
            && |run.sent| == |ws|
            && run.record.bytesDownloaded == r.size
            && (ws != [] ==> run.record.downloadProgress == 100 && run.record.status == "Downloaded"))
    decreases |replies|
  {
    var ws := Plan(r.end, r.size, ChunkSize);
    if r.bytesDownloaded < r.size {
      var w := NextWindow(r.end, r.size, ChunkSize);
      assert ws == [w] + Plan(w.end, r.size, ChunkSize);
      if |replies| > 0 {
        AllOkStep(replies, |ws| - 1);
        if replies[0].Ok? {
          var next := Fetched(r, replies[0].value);
          DownloadAckStep(r, replies);
          HonestTail(replies, ws);
          assert ws[1..] == Plan(w.end, r.size, ChunkSize);
          DownloadFollowsPlan(next, replies[1..]);
          if w.end == r.size {
            DownloadStatusMeaning(next.(downloadProgress := r.downloadProgress, status := r.status));
          }
        }
      }
    }
  }

  /** The replies after the first are honest for the windows after the first. */
  lemma HonestTail(replies: seq<Reply<Bytes>>, ws: seq<Window>)
    requires Honest(replies, ws) && |replies| > 0 && |ws| > 0
    ensures Honest(replies[1..], ws[1..])
  {
    forall j | 0 <= j < |replies[1..]| && j < |ws[1..]| && replies[1..][j].Ok?
      ensures |replies[1..][j].value| == ws[1..][j].end - ws[1..][j].start
    {
      assert replies[1..][j] == replies[j + 1] && ws[1..][j] == ws[j + 1];
    }
  }

  /** A metadata error reaches the callback; the status derived before the
      call is all that changed. */
  lemma DownloadMetaError(r: Record, m: string, replies: seq<Reply<Bytes>>)
    requires r.bytesDownloaded == 0 || r.size > 0
    ensures DownloadRun(r, Err(m), replies) == Run(WithDownloadStatus(r, None), Failed(m), [])
  {
  }

  /** download() of a record that starts from nothing, served honestly: the
      calls follow the plan from offset 0, an empty file completes with no
      call and status "Selected", and a complete download holds exactly the
      received bytes, as many as the size. */
  lemma DownloadFromStart(r: Record, info: Meta, replies: seq<Reply<Bytes>>)
    requires r.bytesDownloaded == 0 && r.end == 0
    requires Honest(replies, Plan(0, info.size, ChunkSize))
    ensures var run := DownloadRun(r, Ok(info), replies);
      var ws := Plan(0, info.size, ChunkSize);
      && |run.sent| <= |ws|
      && run.sent == ws[..|run.sent|]
      && (run.done.Completed? <==> AllOk(replies, |ws|))
      && (run.done.Completed? ==>
            && run.record.data == Some(Received(replies[..|ws|]))
            && |run.record.data.value| == info.size
            && run.record.size == info.size
            && run.record.mediaType == info.mediaType
            && run.record.status == (if info.size == 0 then "Selected" else "Downloaded"))
  {
    var s := WithDownloadStatus(r, None).(size := info.size, mediaType := info.mediaType, data := Some([]));
    assert s.status == "Selected";
    assert DownloadRun(r, Ok(info), replies) == DownloadChunks(s, replies);
    EmptyDownload(s, replies);
  }

  lemma EmptyDownload(s: Record, replies: seq<Reply<Bytes>>)
    requires s.bytesDownloaded == 0 && s.end == 0 && s.data == Some([]) && s.status == "Selected"
    requires Honest(replies, Plan(0, s.size, ChunkSize))
    ensures var run := DownloadChunks(s, replies);
      var ws := Plan(0, s.size, ChunkSize);
      && |run.sent| <= |ws|
      && run.sent == ws[..|run.sent|]
      && (run.done.Completed? <==> AllOk(replies, |ws|))
      && (run.done.Completed? ==>
            && run.record.data == Some(Received(replies[..|ws|]))
            && |run.record.data.value| == s.size
            && run.record.size == s.size
            && run.record.mediaType == s.mediaType
            && run.record.status == (if s.size == 0 then "Selected" else "Downloaded"))
  {
    DownloadFollowsPlan(s, replies);
    DownloadAppends(s, replies);
    DownloadMediaTypeKept(s, replies);
    var run := DownloadChunks(s, replies);
    if run.done.Completed? {
      var ws := Plan(0, s.size, ChunkSize);
      assert Consumed(run) == |ws|;
      assert [] + Received(replies[..|ws|]) == Received(replies[..|ws|]);
    }
  }

  /** The chunk loop never touches the size or the type. */
  lemma {:induction false} DownloadMediaTypeKept(r: Record, replies: seq<Reply<Bytes>>)
    requires r.data.Some?
    ensures var rec := DownloadChunks(r, replies).record;
      rec.size == r.size && rec.mediaType == r.mediaType && rec.id == r.id &&
      (DownloadChunks(r, replies).done.Completed? && r.bytesDownloaded >= r.size ==> rec.status == r.status)
    decreases |replies|
  {
    if r.bytesDownloaded < r.size && |replies| > 0 && replies[0].Ok? {
      var w := NextWindow(r.end, r.size, ChunkSize);
      var bytes := replies[0].value;
      var next := WithDownloadStatus(r.(start := w.start, end := w.end,
        bytesDownloaded := r.bytesDownloaded + |bytes|, data := Some(r.data.value + bytes)), None);
      DownloadMediaTypeKept(next, replies[1..]);
    }
  }

  /** rewind() leaves the download counter alone, so download() run again on
      a record whose counter already reaches the new size fetches nothing:
      it completes at once, with an empty buffer and no chunk call. */
  lemma DownloadStaleCounter(r: Record, info: Meta, replies: seq<Reply<Bytes>>)
    requires r.bytesDownloaded == 0 || r.size > 0
    requires r.bytesDownloaded >= info.size
    ensures var run := DownloadRun(r, Ok(info), replies);
      run.done == Completed && run.sent == [] && run.record.data == Some([])
  {
  }
}
