/** The SmartFile record: the options its constructor accepts, the defaults it
    fills in, and the copies made of it by clone and by the EJSON conversion
    pair toJSONValue / fromJSONValue. */
module SmartFileRecord {
  import opened Wrappers

  newtype Byte = b: int | 0 <= b < 256
  type Bytes = seq<Byte>

  /** The options object handed to the constructor; None is a property that
      is absent (undefined). */
  datatype Options = Options(
    id: Option<string>,
    dirPath: Option<string>,
    name: Option<string>,
    mediaType: Option<string>,
    size: Option<nat>,
    data: Option<Bytes>,
    start: Option<nat>,
    end: Option<nat>,
    bytesUploaded: Option<nat>,
    bytesDownloaded: Option<nat>,
    status: Option<string>,
    uploadProgress: Option<nat>,
    downloadProgress: Option<nat>)

  /** `new SmartFile()` with no options, or with `{}`. */
  const NoOptions := Options(None, None, None, None, None, None, None, None, None, None, None, None, None)

  /** The fields of one SmartFile object (`type` is called mediaType here). */
  datatype Record = Record(
    id: string,
    dirPath: string,
    name: Option<string>,
    mediaType: string,
    size: nat,
    data: Option<Bytes>,
    start: nat,
    end: nat,
    bytesUploaded: nat,
    bytesDownloaded: nat,
    status: string,
    uploadProgress: nat,
    downloadProgress: nat)

  /** JavaScript's `v || fallback` on a possibly-undefined string: both
      undefined and the empty string are falsy. */
  function OrElse(v: Option<string>, fallback: string): (r: string)
    ensures r == fallback <==> v == None || v == Some("") || v == Some(fallback)
    ensures r != fallback ==> v == Some(r)
  {
    if v.Some? && v.value != "" then v.value else fallback
  }

  /** defaultZero: undefined becomes 0, every defined number is kept. */
  function DefaultZero(v: Option<nat>): (r: nat)
    ensures v == None ==> r == 0
    ensures v != None ==> r == v.value
  {
    if v.Some? then v.value else 0
  }

  /** The constructor. `freshId` stands for the value Meteor.uuid() would
      produce; it is used only when the options carry no (or an empty) id. */
  function Construct(o: Options, freshId: string): (r: Record)
    ensures o.id == None || o.id == Some("") ==> r.id == freshId
    ensures o.id.Some? && o.id.value != "" ==> r.id == o.id.value
    ensures r.dirPath == o.dirPath.GetOr("")
    ensures r.name == o.name && r.data == o.data
    ensures o.mediaType == None || o.mediaType == Some("") ==> r.mediaType == "unknown"
    ensures o.mediaType.Some? && o.mediaType.value != "" ==> r.mediaType == o.mediaType.value
    ensures r.status == o.status.GetOr("")
    ensures r.size == DefaultZero(o.size)
    ensures r.start == DefaultZero(o.start) && r.end == DefaultZero(o.end)
    ensures r.bytesUploaded == DefaultZero(o.bytesUploaded)
    ensures r.bytesDownloaded == DefaultZero(o.bytesDownloaded)
    ensures r.uploadProgress == DefaultZero(o.uploadProgress)
    ensures r.downloadProgress == DefaultZero(o.downloadProgress)
    ensures freshId != "" ==> Normal(r)
  {
    Record(
      OrElse(o.id, freshId),
      OrElse(o.dirPath, ""),
      o.name,
      OrElse(o.mediaType, "unknown"),
      DefaultZero(o.size),
      o.data,
      DefaultZero(o.start),
      DefaultZero(o.end),
      DefaultZero(o.bytesUploaded),
      DefaultZero(o.bytesDownloaded),
      OrElse(o.status, ""),
      DefaultZero(o.uploadProgress),
      DefaultZero(o.downloadProgress))
  }

  /** A record the constructor can have produced: its id and its type are not
      empty strings (the constructor replaces an empty one). */
  predicate Normal(r: Record) {
    r.id != "" && r.mediaType != ""
  }

  /** The options object clone() passes to the constructor: every field. */
  function OptionsOf(r: Record): Options {
    Options(Some(r.id), Some(r.dirPath), r.name, Some(r.mediaType), Some(r.size), r.data,
            Some(r.start), Some(r.end), Some(r.bytesUploaded), Some(r.bytesDownloaded),
            Some(r.status), Some(r.uploadProgress), Some(r.downloadProgress))
  }

  /** clone(): a new SmartFile built from this one's fields. */
  function Clone(r: Record, freshId: string): (c: Record)
    requires freshId != ""
    ensures c == r <==> Normal(r)
    ensures Normal(c)
  {
    Construct(OptionsOf(r), freshId)
  }

  /** equals(): two records are equal exactly when their ids are. */
  function Equals(a: Record, b: Record): bool {
    a.id == b.id
  }

  // ---------------------------------------------------------------------
  // EJSON

  /** The JSON values a SmartFile's plain-object form holds. `JBinary` is the
      EJSON form of a byte array, kept opaque. */
  datatype Json = JString(s: string) | JNumber(n: nat) | JBinary(bytes: Bytes)

  /** The property names of a SmartFile's plain-object form, in the order
      toJSONValue writes them: `_id`, `dirPath`, `name`, `type`, `size`,
      `data`, `start`, `end`, `bytesUploaded`, `bytesDownloaded`,
      `uploadProgress`, `downloadProgress`, `status`. */
  datatype Key =
    | IdKey | DirPathKey | NameKey | TypeKey | SizeKey | DataKey | StartKey | EndKey
    | BytesUploadedKey | BytesDownloadedKey | UploadProgressKey | DownloadProgressKey | StatusKey

  /** A JSON object: a property mapped to its value; an undefined property is
      absent. */
  type JsonObject = map<Key, Json>

  /** Every property name. */
  const AllKeys: set<Key> := {IdKey, DirPathKey, NameKey, TypeKey, SizeKey, DataKey, StartKey, EndKey,
                              BytesUploadedKey, BytesDownloadedKey, UploadProgressKey, DownloadProgressKey, StatusKey}

  /** The value toJSONValue() writes under `key`; an undefined name or data
      writes nothing. */
  function Property(r: Record, key: Key): Option<Json> {
    match key
    case IdKey => Some(JString(r.id))
    case DirPathKey => Some(JString(r.dirPath))
    case NameKey => if r.name.Some? then Some(JString(r.name.value)) else None
    case TypeKey => Some(JString(r.mediaType))
    case SizeKey => Some(JNumber(r.size))
    case DataKey => if r.data.Some? then Some(JBinary(r.data.value)) else None
    case StartKey => Some(JNumber(r.start))
    case EndKey => Some(JNumber(r.end))
    case BytesUploadedKey => Some(JNumber(r.bytesUploaded))
    case BytesDownloadedKey => Some(JNumber(r.bytesDownloaded))
    case UploadProgressKey => Some(JNumber(r.uploadProgress))
    case DownloadProgressKey => Some(JNumber(r.downloadProgress))
    case StatusKey => Some(JString(r.status))
  }

  /** toJSONValue(). */
  function ToJSONValue(r: Record): (j: JsonObject)
    ensures j.Keys >= {IdKey, DirPathKey, TypeKey, SizeKey, StartKey, EndKey, BytesUploadedKey,
                       BytesDownloadedKey, UploadProgressKey, DownloadProgressKey, StatusKey}
    ensures NameKey in j <==> r.name.Some?
    ensures DataKey in j <==> r.data.Some?
  {
    map key | key in AllKeys && Property(r, key).Some? :: Property(r, key).value
  }

  function GetString(j: JsonObject, key: Key): Option<string> {
    if key in j && j[key].JString? then Some(j[key].s) else None
  }

  function GetNumber(j: JsonObject, key: Key): Option<nat> {
    if key in j && j[key].JNumber? then Some(j[key].n) else None
  }

  function GetBinary(j: JsonObject, key: Key): Option<Bytes> {
    if key in j && j[key].JBinary? then Some(j[key].bytes) else None
  }

  /** The options fromJSONValue() reads out of a JSON object. A property of
      the wrong kind reads as absent. */
  function OptionsOfJson(j: JsonObject): Options {
    Options(GetString(j, IdKey), GetString(j, DirPathKey), GetString(j, NameKey),
            GetString(j, TypeKey), GetNumber(j, SizeKey), GetBinary(j, DataKey),
            GetNumber(j, StartKey), GetNumber(j, EndKey),
            GetNumber(j, BytesUploadedKey), GetNumber(j, BytesDownloadedKey),
            GetString(j, StatusKey),
            GetNumber(j, UploadProgressKey), GetNumber(j, DownloadProgressKey))
  }

  /** SmartFile.fromJSONValue(): the constructor applied to the object's properties. */
  function FromJSONValue(j: JsonObject, freshId: string): (r: Record)
    requires freshId != ""
    ensures Normal(r)
  {
    Construct(OptionsOfJson(j), freshId)
  }

  /** Reading back a serialised record yields exactly the options clone() uses. */
  lemma JsonCarriesEveryField(r: Record)
    ensures OptionsOfJson(ToJSONValue(r)) == OptionsOf(r)
  {
  }

  /** The EJSON round trip gives back every field of a record the constructor
      can have produced, and of no other record. */
  lemma JsonRoundTrip(r: Record, freshId: string)
    requires freshId != ""
    ensures FromJSONValue(ToJSONValue(r), freshId) == Clone(r, freshId)
    ensures FromJSONValue(ToJSONValue(r), freshId) == r <==> Normal(r)
  {
    JsonCarriesEveryField(r);
  }

  /** equals() is an equivalence that looks at nothing but the id: a record
      equals any other with its id, whatever their other fields hold, and
      none with another id. */
  lemma EqualsOnlyId(a: Record, b: Record, c: Record)
    ensures Equals(a, a)
    ensures Equals(a, b) ==> Equals(b, a)
    ensures Equals(a, b) && Equals(b, c) ==> Equals(a, c)
    ensures Equals(a, b.(id := a.id))
    ensures Equals(a, a.(dirPath := b.dirPath, name := b.name, mediaType := b.mediaType, size := b.size,
                         data := b.data, start := b.start, end := b.end, bytesUploaded := b.bytesUploaded,
                         bytesDownloaded := b.bytesDownloaded, status := b.status,
                         uploadProgress := b.uploadProgress, downloadProgress := b.downloadProgress))
    ensures a.id != b.id ==> !Equals(a, b)
  {
  }

  /** A clone of a constructed record is equal to it. */
  lemma CloneEquals(r: Record, freshId: string)
    requires freshId != "" && r.id != ""
    ensures Equals(Clone(r, freshId), r)
  {
  }
}
