/** Progress and status derivation (_setUStatus, _setDStatus) and rewind, as
    functions on the record's fields. */
module StatusTracker {
  import opened Wrappers
  import opened Arith
  import opened SmartFileRecord

  /** Math.round(counter / size * 100), with the guard that makes it 0 when
      nothing has been transferred. For non-negative numbers rounding to the
      nearest integer with halves up is (200 * counter + size) / (2 * size);
      a size of 0 with a positive counter (JavaScript's Infinity) is excluded. */
  function Progress(counter: nat, size: nat): (p: nat)
    requires counter == 0 || size > 0
    ensures counter == 0 ==> p == 0
    ensures counter > 0 ==> 2 * size * p <= 200 * counter + size < 2 * size * p + 2 * size
  {
    if counter == 0 then 0
    else
      var p := (200 * counter + size) / (2 * size);
      DivBracket(200 * counter + size, 2 * size, p);
      p
  }

  /** The percentage never exceeds 100 while the counter stays within the size. */
  lemma ProgressAtMostHundred(counter: nat, size: nat)
    requires counter <= size && (counter == 0 || size > 0)
    ensures Progress(counter, size) <= 100
  {
    if counter > 0 {
      var p := Progress(counter, size);
      MulMonotone(100, p, 2 * size);
    }
  }

  /** The percentage is 100 exactly when at least 99.5% of the bytes are
      through, and 0 exactly when fewer than 0.5% are. */
  lemma ProgressExtremes(counter: nat, size: nat)
    requires 0 < counter <= size
    ensures Progress(counter, size) == 100 <==> 200 * counter >= 199 * size
    ensures Progress(counter, size) == 0 <==> 200 * counter < size
  {
    var p := Progress(counter, size);
    DivBracket(200 * counter + size, 2 * size, 100);
    DivBracket(200 * counter + size, 2 * size, 0);
  }

  /** More bytes never give a smaller percentage. */
  lemma ProgressMonotone(c1: nat, c2: nat, size: nat)
    requires c1 <= c2 && (c2 == 0 || size > 0)
    ensures Progress(c1, size) <= Progress(c2, size)
  {
    if c1 > 0 {
      DivMonotone(200 * c1 + size, 200 * c2 + size, 2 * size);
    }
  }

  /** The whole file through is 100%. */
  lemma ProgressComplete(size: nat)
    requires size > 0
    ensures Progress(size, size) == 100
  {
    ProgressExtremes(size, size);
  }

  function UploadLabel(p: nat): string {
    if p == 100 then "Uploaded" else if p > 0 then "Uploading..." else "Loaded"
  }

  function DownloadLabel(p: nat): string {
    if p == 100 then "Downloaded" else if p > 0 then "Downloading..." else "Selected"
  }

  /** rewind(): the window, the upload counter and both percentages go back to
      0. The download counter is left as it is. */
  function Rewound(r: Record): Record {
    r.(start := 0, end := 0, bytesUploaded := 0, uploadProgress := 0, downloadProgress := 0)
  }

  /** rewind() resets exactly the window, the upload counter and the two
      percentages, keeps everything else (bytesDownloaded included), and a
      second rewind changes nothing. */
  lemma RewindResets(r: Record)
    ensures var r' := Rewound(r);
      && r'.start == 0 && r'.end == 0 && r'.bytesUploaded == 0
      && r'.uploadProgress == 0 && r'.downloadProgress == 0
      && r'.id == r.id && r'.dirPath == r.dirPath && r'.name == r.name
      && r'.mediaType == r.mediaType && r'.size == r.size && r'.data == r.data
      && r'.bytesDownloaded == r.bytesDownloaded && r'.status == r.status
      && Rewound(r') == r'
  {
  }

  /** _setUStatus(err): on an error the status is its text and the record is
      rewound; otherwise the upload percentage and its label are recomputed. */
  function WithUploadStatus(r: Record, err: Option<string>): Record
    requires err.Some? || r.bytesUploaded == 0 || r.size > 0
  {
    if err.Some? then Rewound(r.(status := err.value))
    else
      var p := Progress(r.bytesUploaded, r.size);
      r.(uploadProgress := p, status := UploadLabel(p))
  }

  /** _setDStatus(err): the same for the download counter and labels. */
  function WithDownloadStatus(r: Record, err: Option<string>): Record
    requires err.Some? || r.bytesDownloaded == 0 || r.size > 0
  {
    if err.Some? then Rewound(r.(status := err.value))
    else
      var p := Progress(r.bytesDownloaded, r.size);
      r.(downloadProgress := p, status := DownloadLabel(p))
  }

  /** The upload status after a success: "Uploaded" from 99.5% of the bytes on
      (and so at every non-empty completed upload), "Loaded" while below 0.5%
      (and always at 0 bytes), "Uploading..." in between; the percentage stays
      within 0..100 and only the percentage and the status change. */
  lemma UploadStatusMeaning(r: Record)
    requires r.bytesUploaded <= r.size && (r.bytesUploaded == 0 || r.size > 0)
    ensures var u := WithUploadStatus(r, None);
      && u.uploadProgress <= 100
      && u == r.(uploadProgress := u.uploadProgress, status := u.status)
      && (u.status == "Uploaded" <==> r.bytesUploaded > 0 && 200 * r.bytesUploaded >= 199 * r.size)
      && (u.status == "Loaded" <==> 200 * r.bytesUploaded < r.size || r.bytesUploaded == 0)
      && (u.status == "Uploading..." <==> r.bytesUploaded > 0 && r.size <= 200 * r.bytesUploaded < 199 * r.size)
      && (r.bytesUploaded == r.size > 0 ==> u.status == "Uploaded" && u.uploadProgress == 100)
  {
    ProgressAtMostHundred(r.bytesUploaded, r.size);
    if r.bytesUploaded > 0 {
      ProgressExtremes(r.bytesUploaded, r.size);
    }
  }

  /** The download status after a success, likewise: "Downloaded" from 99.5%
      on, "Selected" below 0.5%, "Downloading..." in between. */
  lemma DownloadStatusMeaning(r: Record)
    requires r.bytesDownloaded <= r.size && (r.bytesDownloaded == 0 || r.size > 0)
    ensures var u := WithDownloadStatus(r, None);
      && u.downloadProgress <= 100
      && u == r.(downloadProgress := u.downloadProgress, status := u.status)
      && (u.status == "Downloaded" <==> r.bytesDownloaded > 0 && 200 * r.bytesDownloaded >= 199 * r.size)
      && (u.status == "Selected" <==> 200 * r.bytesDownloaded < r.size || r.bytesDownloaded == 0)
      && (u.status == "Downloading..." <==> r.bytesDownloaded > 0 && r.size <= 200 * r.bytesDownloaded < 199 * r.size)
      && (r.bytesDownloaded == r.size > 0 ==> u.status == "Downloaded" && u.downloadProgress == 100)
  {
    ProgressAtMostHundred(r.bytesDownloaded, r.size);
    if r.bytesDownloaded > 0 {
      ProgressExtremes(r.bytesDownloaded, r.size);
    }
  }

  /** On an error either status update makes the error text the status,
      rewinds, and keeps every other field. */
  lemma ErrorStatusRewinds(r: Record, m: string)
    ensures WithUploadStatus(r, Some(m)) == Rewound(r).(status := m)
    ensures WithDownloadStatus(r, Some(m)) == Rewound(r).(status := m)
    ensures WithUploadStatus(r, Some(m)).bytesDownloaded == r.bytesDownloaded
  {
  }
}
