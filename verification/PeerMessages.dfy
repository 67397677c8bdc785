/**
 Peer messages and transfer negotiation: what each variant looks like on the
 wire, how a frame payload is decoded, and that every variant survives the trip.
 zlib is a parameter.
 */
module PeerMessages {
  import opened Bytes
  import opened Wire
  import opened Frame
  import opened ShareTree
  import Utf8

  const MAX_INFLATED_LEN: nat := 64 * 1024 * 1024
  const MAX_PICTURE_LEN: nat := 8 * 1024 * 1024

  const GET_SHARED_FILE_LIST: u32 := 4
  const SHARED_FILE_LIST: u32 := 5
  const FILE_SEARCH_RESPONSE: u32 := 9
  const USER_INFO_REQUEST: u32 := 15
  const USER_INFO_RESPONSE: u32 := 16
  const FOLDER_CONTENTS_REQUEST: u32 := 36
  const FOLDER_CONTENTS_RESPONSE: u32 := 37
  const TRANSFER_REQUEST: u32 := 40
  const TRANSFER_RESPONSE: u32 := 41
  const QUEUE_UPLOAD: u32 := 43
  const PLACE_IN_QUEUE_RESPONSE: u32 := 44
  const UPLOAD_FAILED: u32 := 46
  const UPLOAD_DENIED: u32 := 50
  const PLACE_IN_QUEUE_REQUEST: u32 := 51

  datatype Direction = Download | Upload

  datatype Message =
    | SharedFileListRequest
    | SharedFileList(directories: seq<SharedDirectory>, privateDirectories: seq<SharedDirectory>)
    | FileSearchResponse(username: string, token: u32, files: seq<SharedFile>, freeSlots: bool, uploadSpeed: u32,
                         inQueue: u32, privateFiles: seq<SharedFile>)
    | FolderContentsRequest(token: u32, directory: string)
    | FolderContents(token: u32, directory: string, folders: seq<SharedDirectory>)
    | UserInfoRequest
    | UserInfoResponse(description: string, picture: Option<seq<byte>>, totalUploads: u32, queueSize: u32,
                       slotsAvailable: bool, uploadAllowed: u32)
    | QueueUpload(file: string)
    | TransferRequest(direction: Direction, token: u32, file: string, filesize: Option<u64>)
    | TransferResponse(token: u32, allowed: bool, filesize: Option<u64>, refusal: Option<string>)
    | PlaceInQueueRequest(file: string)
    | PlaceInQueueResponse(file: string, place: u32)
    | UploadDenied(file: string, reason: string)
    | UploadFailed(file: string)
    | Unknown(code: u32, body: seq<byte>)

  /** What a decoder produces before it ends or fails, and whether it ended cleanly. */
  datatype Inflated = Inflated(output: seq<byte>, clean: bool)

  datatype Zlib = Zlib(compress: seq<byte> -> seq<byte>, inflate: seq<byte> -> Inflated) {
    ghost predicate Inverse() {
      forall data :: inflate(compress(data)) == Inflated(data, true)
    }
  }

  function Decompress(z: Zlib, data: seq<byte>): Result<seq<byte>, DecodeError> {
    var i := z.inflate(data);
    if |i.output| > MAX_INFLATED_LEN then Failure(InvalidValue(InflatesPastCap))
    else if !i.clean then Failure(InvalidValue(ZlibFailed))
    else Success(i.output)
  }

  predicate Compressed(code: u32) {
    code == SHARED_FILE_LIST || code == FILE_SEARCH_RESPONSE || code == FOLDER_CONTENTS_RESPONSE
  }

  // ---- the grammar of bodies -------------------------------------------------

  /** An optional field of unknown purpose, then an optional list. */
  function ReadTail<T>(p: seq<byte> -> Parsed<seq<T>>, s: seq<byte>): Parsed<seq<T>> {
    if s == [] then Ok([], [])
    else
      var (_, s1) :- ReadU32(s);
      if s1 == [] then Ok([], []) else p(s1)
  }

  function ReadSharedFileList(s: seq<byte>): Parsed<Message> {
    var (directories, s1) :- ReadDirectories(s);
    var (privateDirectories, s2) :- ReadTail(ReadDirectories, s1);
    Ok(SharedFileList(directories, privateDirectories), s2)
  }

  function ReadFileSearchResponse(s: seq<byte>): Parsed<Message> {
    var (username, s1) :- ReadString(s);
    var (token, s2) :- ReadU32(s1);
    var (files, s3) :- ReadFiles(s2);
    var (freeSlots, s4) :- ReadBool(s3);
    var (uploadSpeed, s5) :- ReadU32(s4);
    var (inQueue, s6) :- ReadU32(s5);
    var (privateFiles, s7) :- ReadTail(ReadFiles, s6);
    Ok(FileSearchResponse(username, token, files, freeSlots, uploadSpeed, inQueue, privateFiles), s7)
  }

  function ReadFolderContents(s: seq<byte>): Parsed<Message> {
    var (token, s1) :- ReadU32(s);
    var (directory, s2) :- ReadString(s1);
    var (folders, s3) :- ReadDirectories(s2);
    Ok(FolderContents(token, directory, folders), s3)
  }

  function ReadPicture(s: seq<byte>): Parsed<Option<seq<byte>>> {
    var (present, s1) :- ReadBool(s);
    if !present then Ok(None, s1)
    else
      var (len, s2) :- ReadU32(s1);
      if len > MAX_PICTURE_LEN then Err(InvalidValue(PictureTooLarge(len)))
      else
        var (b, s3) :- Take(len, s2);
        Ok(Some(b), s3)
  }

  function ReadUploadAllowed(s: seq<byte>): Parsed<u32> {
    if |s| >= 4 then ReadU32(s) else Ok(0, s)
  }

  function ReadUserInfoResponse(s: seq<byte>): Parsed<Message> {
    var (description, s1) :- ReadString(s);
    var (picture, s2) :- ReadPicture(s1);
    var (totalUploads, s3) :- ReadU32(s2);
    var (queueSize, s4) :- ReadU32(s3);
    var (slotsAvailable, s5) :- ReadBool(s4);
    var (uploadAllowed, s6) :- ReadUploadAllowed(s5);
    Ok(UserInfoResponse(description, picture, totalUploads, queueSize, slotsAvailable, uploadAllowed), s6)
  }

  function ReadDirection(s: seq<byte>): Parsed<Direction> {
    var (d, s1) :- ReadU32(s);
    if d == 0 then Ok(Download, s1)
    else if d == 1 then Ok(Upload, s1)
    else Err(InvalidValue(UnknownDirection(d)))
  }

  function ReadTransferRequest(s: seq<byte>): Parsed<Message> {
    var (direction, s1) :- ReadDirection(s);
    var (token, s2) :- ReadU32(s1);
    var (file, s3) :- ReadString(s2);
    if direction == Upload then
      var (size, s4) :- ReadU64(s3);
      Ok(TransferRequest(direction, token, file, Some(size)), s4)
    else Ok(TransferRequest(direction, token, file, None), s3)
  }

  function ReadTransferResponse(s: seq<byte>): Parsed<Message> {
    var (token, s1) :- ReadU32(s);
    var (allowed, s2) :- ReadBool(s1);
    if s2 == [] then Ok(TransferResponse(token, allowed, None, None), s2)
    else if allowed then
      var (size, s3) :- ReadU64(s2);
      Ok(TransferResponse(token, allowed, Some(size), None), s3)
    else
      var (reason, s3) :- ReadString(s2);
      Ok(TransferResponse(token, allowed, None, Some(reason)), s3)
  }

  function ReadFolderContentsRequest(s: seq<byte>): Parsed<Message> {
    var (token, s1) :- ReadU32(s);
    var (directory, s2) :- ReadString(s1);
    Ok(FolderContentsRequest(token, directory), s2)
  }

  function ReadPlaceInQueueResponse(s: seq<byte>): Parsed<Message> {
    var (file, s1) :- ReadString(s);
    var (place, s2) :- ReadU32(s1);
    Ok(PlaceInQueueResponse(file, place), s2)
  }

  function ReadUploadDenied(s: seq<byte>): Parsed<Message> {
    var (file, s1) :- ReadString(s);
    var (reason, s2) :- ReadString(s1);
    Ok(UploadDenied(file, reason), s2)
  }

  /** The variants that carry one file path and nothing else. */
  function ReadFileName(code: u32, s: seq<byte>): Parsed<Message> {
    var (file, s1) :- ReadString(s);
    Ok(if code == QUEUE_UPLOAD then QueueUpload(file)
       else if code == PLACE_IN_QUEUE_REQUEST then PlaceInQueueRequest(file)
       else UploadFailed(file), s1)
  }

  function ReadBody(code: u32, s: seq<byte>): Parsed<Message> {
    if code == GET_SHARED_FILE_LIST then Ok(SharedFileListRequest, s)
    else if code == SHARED_FILE_LIST then ReadSharedFileList(s)
    else if code == FILE_SEARCH_RESPONSE then ReadFileSearchResponse(s)
    else if code == FOLDER_CONTENTS_REQUEST then ReadFolderContentsRequest(s)
    else if code == FOLDER_CONTENTS_RESPONSE then ReadFolderContents(s)
    else if code == USER_INFO_REQUEST then Ok(UserInfoRequest, s)
    else if code == USER_INFO_RESPONSE then ReadUserInfoResponse(s)
    else if code == TRANSFER_REQUEST then ReadTransferRequest(s)
    else if code == TRANSFER_RESPONSE then ReadTransferResponse(s)
    else if code == PLACE_IN_QUEUE_RESPONSE then ReadPlaceInQueueResponse(s)
    else if code == UPLOAD_DENIED then ReadUploadDenied(s)
    else if code == QUEUE_UPLOAD || code == PLACE_IN_QUEUE_REQUEST || code == UPLOAD_FAILED then ReadFileName(code, s)
    else Ok(Unknown(code, s), [])
  }

  /** What is left over after a message is ignored. */
  function Verdict(p: Parsed<Message>): Result<Message, DecodeError> {
    match p
    case Err(e) => Failure(e)
    case Ok(m, _) => Success(m)
  }

  function DecodePayload(z: Zlib, payload: seq<byte>): Result<Message, DecodeError> {
    match ReadU32(payload)
    case Err(e) => Failure(e)
    case Ok(code, rest) =>
      var body :- if Compressed(code) then Decompress(z, rest) else Success(rest);
      Verdict(ReadBody(code, body))
  }

  // ---- the encoders as functions -----------------------------------------------

  function Code(m: Message): u32 {
    match m
    case SharedFileListRequest => GET_SHARED_FILE_LIST
    case SharedFileList(_, _) => SHARED_FILE_LIST
    case FileSearchResponse(_, _, _, _, _, _, _) => FILE_SEARCH_RESPONSE
    case FolderContentsRequest(_, _) => FOLDER_CONTENTS_REQUEST
    case FolderContents(_, _, _) => FOLDER_CONTENTS_RESPONSE
    case UserInfoRequest => USER_INFO_REQUEST
    case UserInfoResponse(_, _, _, _, _, _) => USER_INFO_RESPONSE
    case QueueUpload(_) => QUEUE_UPLOAD
    case TransferRequest(_, _, _, _) => TRANSFER_REQUEST
    case TransferResponse(_, _, _, _) => TRANSFER_RESPONSE
    case PlaceInQueueRequest(_) => PLACE_IN_QUEUE_REQUEST
    case PlaceInQueueResponse(_, _) => PLACE_IN_QUEUE_RESPONSE
    case UploadDenied(_, _) => UPLOAD_DENIED
    case UploadFailed(_) => UPLOAD_FAILED
    case Unknown(code, _) => code
  }

  function PictureBytes(p: Option<seq<byte>>): seq<byte> {
    match p
    case None => BoolBytes(false)
    case Some(b) => BoolBytes(true) + (U32Bytes(Truncate32(|b|)) + b)
  }

  function TailBytes(list: seq<byte>): seq<byte> {
    U32Bytes(0) + list
  }

  /** The body before compression. `Unknown` has no encoder. */
  function Raw(m: Message): seq<byte>
    requires !m.Unknown?
  {
    match m
    case SharedFileListRequest => []
    case SharedFileList(ds, ps) =>
      DirectoriesBytes(ds) + TailBytes(if ps == [] then [] else DirectoriesBytes(ps))
    case FileSearchResponse(username, token, files, free, speed, queue, ps) =>
      StringBytes(username) + (U32Bytes(token) + (FilesBytes(files) + (BoolBytes(free) + (U32Bytes(speed)
      + (U32Bytes(queue) + TailBytes(if ps == [] then [] else FilesBytes(ps)))))))
    case FolderContentsRequest(token, directory) => U32Bytes(token) + StringBytes(directory)
    case FolderContents(token, directory, folders) =>
      U32Bytes(token) + (StringBytes(directory) + DirectoriesBytes(folders))
    case UserInfoRequest => []
    case UserInfoResponse(description, picture, uploads, queue, slots, allowed) =>
      StringBytes(description) + (PictureBytes(picture) + (U32Bytes(uploads) + (U32Bytes(queue)
      + (BoolBytes(slots) + U32Bytes(allowed)))))
    case TransferRequest(direction, token, file, size) =>
      U32Bytes(if direction == Download then 0 else 1) + (U32Bytes(token) + (StringBytes(file)
      + (if direction == Download then [] else U64Bytes(if size.Some? then size.value else 0))))
    case TransferResponse(token, allowed, size, reason) =>
      U32Bytes(token) + (BoolBytes(allowed)
      + (if allowed then if size.Some? then U64Bytes(size.value) else []
         else if reason.Some? then StringBytes(reason.value) else []))
    case PlaceInQueueResponse(file, place) => StringBytes(file) + U32Bytes(place)
    case UploadDenied(file, reason) => StringBytes(file) + StringBytes(reason)
    case QueueUpload(file) => StringBytes(file)
    case PlaceInQueueRequest(file) => StringBytes(file)
    case UploadFailed(file) => StringBytes(file)
  }

  function Body(z: Zlib, m: Message): seq<byte>
    requires !m.Unknown?
  {
    if Compressed(Code(m)) then z.compress(Raw(m)) else Raw(m)
  }

  function FrameOf(z: Zlib, m: Message): seq<byte>
    requires !m.Unknown?
  {
    FrameU32(Code(m), Body(z, m))
  }

  /** What a peer makes of `m`. */
  function Normal(m: Message): Message {
    match m
    case SharedFileList(ds, ps) => SharedFileList(NormalDirectories(ds), NormalDirectories(ps))
    case FileSearchResponse(_, _, files, _, _, _, ps) =>
      m.(files := NormalFiles(files), privateFiles := NormalFiles(ps))
    case FolderContents(_, _, folders) => m.(folders := NormalDirectories(folders))
    case TransferRequest(direction, token, file, size) =>
      TransferRequest(direction, token, file,
                      if direction == Download then None else Some(if size.Some? then size.value else 0))
    case TransferResponse(token, allowed, size, refusal) =>
      if allowed then TransferResponse(token, true, size, None) else TransferResponse(token, false, None, refusal)
    case _ => m
  }

  // ---- bodies survive ----------------------------------------------------------

  predicate PictureFits(m: Message) {
    m.UserInfoResponse? && m.picture.Some? ==> |m.picture.value| <= MAX_PICTURE_LEN
  }

  /**
   The three shapes of the tail are told apart for any value of the unknown
   field: nothing, the field alone, and the field followed by a list.
   */
  lemma TailInverts<T>(p: seq<byte> -> Parsed<seq<T>>, unknown: u32, list: seq<byte>, xs: seq<T>)
    requires list != [] ==> p(list) == Ok(xs, [])
    ensures ReadTail(p, []) == Ok([], [])
    ensures ReadTail(p, U32Bytes(unknown)) == Ok([], [])
    ensures list != [] ==> ReadTail(p, U32Bytes(unknown) + list) == Ok(xs, [])
  {
    ReadU32Inverts(unknown, list);
    ReadU32Inverts(unknown, []);
    assert U32Bytes(unknown) + [] == U32Bytes(unknown);
  }

  lemma DirectoriesTail(ps: seq<SharedDirectory>)
    requires |DirectoriesBytes(ps)| < U32_LIMIT
    ensures ReadTail(ReadDirectories, TailBytes(if ps == [] then [] else DirectoriesBytes(ps)))
            == Ok(NormalDirectories(ps), [])
  {
    var b := DirectoriesBytes(ps);
    DirectoriesInvert(ps, []);
    assert b + [] == b;
    TailInverts(ReadDirectories, 0, b, NormalDirectories(ps));
    assert U32Bytes(0) + [] == U32Bytes(0);
  }

  lemma FilesTail(ps: seq<SharedFile>)
    requires |FilesBytes(ps)| < U32_LIMIT
    ensures ReadTail(ReadFiles, TailBytes(if ps == [] then [] else FilesBytes(ps))) == Ok(NormalFiles(ps), [])
  {
    var b := FilesBytes(ps);
    FilesInvert(ps, []);
    assert b + [] == b;
    TailInverts(ReadFiles, 0, b, NormalFiles(ps));
    assert U32Bytes(0) + [] == U32Bytes(0);
  }

  lemma SharedFileListInverts(m: Message)
    requires m.SharedFileList? && |Raw(m)| < U32_LIMIT
    ensures ReadSharedFileList(Raw(m)) == Ok(Normal(m), [])
  {
    hide DirectoriesBytes, ReadDirectories, ReadTail;
    var (ds, ps) := (m.directories, m.privateDirectories);
    var tail := TailBytes(if ps == [] then [] else DirectoriesBytes(ps));
    DirectoriesInvert(ds, tail);
    EmptyLists();
    DirectoriesTail(ps);
  }

  lemma EmptyLists()
    ensures |DirectoriesBytes([])| == 4 && |FilesBytes([])| == 4
  {
  }

  lemma FileSearchResponseInverts(m: Message)
    requires m.FileSearchResponse? && |Raw(m)| < U32_LIMIT
    ensures ReadFileSearchResponse(Raw(m)) == Ok(Normal(m), [])
  {
    hide FilesBytes, ReadFiles, ReadTail, ReadString, StringBytes, ReadU32, U32Bytes, ReadBool, BoolBytes;
    var s6 := TailBytes(if m.privateFiles == [] then [] else FilesBytes(m.privateFiles));
    var s5 := U32Bytes(m.inQueue) + s6;
    var s4 := U32Bytes(m.uploadSpeed) + s5;
    var s3 := BoolBytes(m.freeSlots) + s4;
    var s2 := FilesBytes(m.files) + s3;
    var s1 := U32Bytes(m.token) + s2;
    StringInverts(m.username, s1);
    ReadU32Inverts(m.token, s2);
    FilesInvert(m.files, s3);
    ReadBoolInverts(m.freeSlots, s4);
    ReadU32Inverts(m.uploadSpeed, s5);
    ReadU32Inverts(m.inQueue, s6);
    EmptyLists();
    FilesTail(m.privateFiles);
  }

  lemma FolderContentsInverts(m: Message)
    requires m.FolderContents? && |Raw(m)| < U32_LIMIT
    ensures ReadFolderContents(Raw(m)) == Ok(Normal(m), [])
  {
    hide DirectoriesBytes, ReadDirectories, ReadString, StringBytes, ReadU32, U32Bytes;
    var b := DirectoriesBytes(m.folders);
    ReadU32Inverts(m.token, StringBytes(m.directory) + b);
    StringInverts(m.directory, b);
    DirectoriesInvert(m.folders, []);
    assert b + [] == b;
  }

  lemma PictureInverts(p: Option<seq<byte>>, t: seq<byte>)
    requires p.Some? ==> |p.value| < U32_LIMIT
    ensures p.Some? && |p.value| > MAX_PICTURE_LEN ==>
      ReadPicture(PictureBytes(p) + t) == Err(InvalidValue(PictureTooLarge(|p.value|)))
    ensures p.None? || |p.value| <= MAX_PICTURE_LEN ==> ReadPicture(PictureBytes(p) + t) == Ok(p, t)
  {
    hide ReadBool, BoolBytes, ReadU32, U32Bytes;
    match p
    case None =>
      ReadBoolInverts(false, t);
    case Some(b) =>
      var s2 := b + t;
      var s1 := U32Bytes(|b|) + s2;
      assert PictureBytes(p) + t == BoolBytes(true) + s1;
      ReadBoolInverts(true, s1);
      ReadU32Inverts(|b|, s2);
      TakeFront(b, t);
  }

  lemma UserInfoInverts(m: Message)
    requires m.UserInfoResponse? && |Raw(m)| < U32_LIMIT
    ensures PictureFits(m) ==> ReadUserInfoResponse(Raw(m)) == Ok(m, [])
    ensures !PictureFits(m) ==> ReadUserInfoResponse(Raw(m)).Err?
  {
    hide ReadString, StringBytes, ReadU32, U32Bytes, ReadBool, BoolBytes, ReadPicture;
    var s5 := U32Bytes(m.uploadAllowed);
    var s4 := BoolBytes(m.slotsAvailable) + s5;
    var s3 := U32Bytes(m.queueSize) + s4;
    var s2 := U32Bytes(m.totalUploads) + s3;
    var s1 := PictureBytes(m.picture) + s2;
    StringInverts(m.description, s1);
    PictureInverts(m.picture, s2);
    ReadU32Inverts(m.totalUploads, s3);
    ReadU32Inverts(m.queueSize, s4);
    ReadBoolInverts(m.slotsAvailable, s5);
    ReadU32Inverts(m.uploadAllowed, []);
    assert s5 + [] == s5;
  }

  lemma TransferRequestInverts(m: Message, t: seq<byte>)
    requires m.TransferRequest? && |Raw(m)| < U32_LIMIT
    ensures ReadTransferRequest(Raw(m) + t) == Ok(Normal(m), t)
  {
    hide ReadString, StringBytes, ReadU32, U32Bytes, ReadU64, U64Bytes, Utf8.Encode;
    var code := if m.direction == Download then 0 else 1;
    var size := if m.filesize.Some? then m.filesize.value else 0;
    var sized := if m.direction == Download then [] else U64Bytes(size);
    var s2 := StringBytes(m.file) + (sized + t);
    var s1 := U32Bytes(m.token) + s2;
    FourJoined(U32Bytes(code), U32Bytes(m.token), StringBytes(m.file), sized, t);
    assert |Utf8.Encode(m.file)| < U32_LIMIT;
    ReadU32Inverts(code, s1);
    ReadU32Inverts(m.token, s2);
    StringInverts(m.file, sized + t);
    ReadU64Inverts(size, t);
    NothingLeft(t);
  }

  lemma FourJoined(a: seq<byte>, b: seq<byte>, c: seq<byte>, d: seq<byte>, t: seq<byte>)
    ensures a + (b + (c + d)) + t == a + (b + (c + (d + t)))
  {
  }

  lemma TransferResponseInverts(m: Message)
    requires m.TransferResponse? && |Raw(m)| < U32_LIMIT
    ensures ReadTransferResponse(Raw(m)) == Ok(Normal(m), [])
  {
    hide ReadString, StringBytes, ReadU32, U32Bytes, ReadU64, U64Bytes, ReadBool, BoolBytes;
    var s2 :=
      if m.allowed then if m.filesize.Some? then U64Bytes(m.filesize.value) else []
      else if m.refusal.Some? then StringBytes(m.refusal.value) else [];
    ReadU32Inverts(m.token, BoolBytes(m.allowed) + s2);
    ReadBoolInverts(m.allowed, s2);
    assert s2 + [] == s2;
    if m.allowed && m.filesize.Some? {
      ReadU64Inverts(m.filesize.value, []);
    }
    if !m.allowed && m.refusal.Some? {
      StringInverts(m.refusal.value, []);
    }
  }

  lemma PairInverts(m: Message, t: seq<byte>)
    requires m.FolderContentsRequest? || m.PlaceInQueueResponse? || m.UploadDenied?
    requires |Raw(m)| < U32_LIMIT
    ensures ReadBody(Code(m), Raw(m) + t) == Ok(m, t)
  {
    hide ReadString, StringBytes, ReadU32, U32Bytes, Utf8.Encode;
    match m {
      case FolderContentsRequest(token, directory) =>
        ReadU32Inverts(token, StringBytes(directory) + t);
        StringInverts(directory, t);
        assert Raw(m) + t == U32Bytes(token) + (StringBytes(directory) + t);
      case PlaceInQueueResponse(file, place) =>
        StringInverts(file, U32Bytes(place) + t);
        ReadU32Inverts(place, t);
        assert Raw(m) + t == StringBytes(file) + (U32Bytes(place) + t);
      case UploadDenied(file, reason) =>
        StringInverts(file, StringBytes(reason) + t);
        StringInverts(reason, t);
        assert Raw(m) + t == StringBytes(file) + (StringBytes(reason) + t);
    }
  }

  lemma FileNameInverts(m: Message, t: seq<byte>)
    requires m.QueueUpload? || m.PlaceInQueueRequest? || m.UploadFailed?
    requires |Raw(m)| < U32_LIMIT
    ensures ReadBody(Code(m), Raw(m) + t) == Ok(m, t)
  {
    hide ReadString, StringBytes;
    StringInverts(m.file, t);
  }

  /** Every body under 4 GiB is read back as the message's normal form, but for an oversized picture. */
  lemma BodyInverts(m: Message)
    requires !m.Unknown? && |Raw(m)| < U32_LIMIT
    ensures PictureFits(m) ==> ReadBody(Code(m), Raw(m)) == Ok(Normal(m), [])
    ensures !PictureFits(m) ==> ReadBody(Code(m), Raw(m)).Err?
  {
    hide ReadSharedFileList, ReadFileSearchResponse, ReadFolderContents, ReadUserInfoResponse, ReadTransferRequest,
      ReadTransferResponse, ReadFolderContentsRequest, ReadPlaceInQueueResponse, ReadUploadDenied, ReadFileName, Raw;
    NothingLeft(Raw(m));
    match m {
      case SharedFileListRequest => EmptyBodies();
      case UserInfoRequest => EmptyBodies();
      case SharedFileList(_, _) => SharedFileListInverts(m);
      case FileSearchResponse(_, _, _, _, _, _, _) => FileSearchResponseInverts(m);
      case FolderContents(_, _, _) => FolderContentsInverts(m);
      case UserInfoResponse(_, _, _, _, _, _) => UserInfoInverts(m);
      case TransferRequest(_, _, _, _) => TransferRequestInverts(m, []);
      case TransferResponse(_, _, _, _) => TransferResponseInverts(m);
      case FolderContentsRequest(_, _) => PairInverts(m, []);
      case PlaceInQueueResponse(_, _) => PairInverts(m, []);
      case UploadDenied(_, _) => PairInverts(m, []);
      case _ => FileNameInverts(m, []);
    }
  }

  lemma EmptyBodies()
    ensures Raw(SharedFileListRequest) == [] && Raw(UserInfoRequest) == []
  {
  }

  // ---- frames survive ------------------------------------------------------------

  /** `frame` is one whole frame, and its payload decodes to `m`. */
  predicate Delivers(z: Zlib, cap: nat, frame: seq<byte>, m: Message) {
    match SplitFrameCapped(frame, cap)
    case Complete(payload, rest) => rest == [] && DecodePayload(z, payload) == Success(m)
    case _ => false
  }

  /** The size limits a sender can check before sending. */
  predicate Fits(z: Zlib, cap: nat, m: Message)
    requires !m.Unknown?
  {
    && 4 + |Body(z, m)| <= cap
    && (Compressed(Code(m)) ==> |Raw(m)| <= MAX_INFLATED_LEN)
    && PictureFits(m)
  }

  lemma PayloadDecodes(z: Zlib, cap: nat, m: Message)
    requires cap < U32_LIMIT
    requires z.Inverse() && !m.Unknown?
    requires 4 + |Body(z, m)| <= cap
    ensures DecodePayload(z, U32Bytes(Code(m)) + Body(z, m)) == Success(Normal(m)) <==> Fits(z, cap, m)
  {
    hide Raw, ReadBody, ReadU32, U32Bytes, Normal;
    ReadU32Inverts(Code(m), Body(z, m));
    if !Compressed(Code(m)) || |Raw(m)| <= MAX_INFLATED_LEN {
      BodyInverts(m);
    }
  }

  /**
   A message arrives as its normal form exactly when it is within the frame cap,
   the inflated-size cap and the picture cap.
   */
  lemma FrameArrives(z: Zlib, cap: nat, m: Message)
    requires cap < U32_LIMIT
    requires z.Inverse() && !m.Unknown?
    ensures Delivers(z, cap, FrameOf(z, m), Normal(m)) <==> Fits(z, cap, m)
  {
    hide SplitFrameCapped, Framed, DecodePayload, Body, Normal, PictureFits;
    var payload := U32Bytes(Code(m)) + Body(z, m);
    assert Framed(payload) + [] == Framed(payload);
    SplitInvertsFraming(payload, [], cap);
    if |payload| <= cap {
      PayloadDecodes(z, cap, m);
    } else {
      OversizedNeverWhole(payload, cap);
    }
  }

  lemma OversizedNeverWhole(payload: seq<byte>, cap: nat)
    requires cap < |payload| && cap < U32_LIMIT
    ensures SplitFrameCapped(Framed(payload), cap).Complete? ==> SplitFrameCapped(Framed(payload), cap).rest != []
  {
    TakeFront(U32Bytes(Truncate32(|payload|)), payload);
  }

  /** Messages a peer would read differently never share a frame. */
  lemma DistinctFrames(z: Zlib, cap: nat, a: Message, b: Message)
    requires z.Inverse() && !a.Unknown? && !b.Unknown?
    requires cap < U32_LIMIT && Fits(z, cap, a) && Fits(z, cap, b)
    requires Normal(a) != Normal(b)
    ensures FrameOf(z, a) != FrameOf(z, b)
  {
    hide FrameOf, Normal, Fits;
    FrameArrives(z, cap, a);
    FrameArrives(z, cap, b);
  }

  /** Forwarding what was received changes nothing more. */
  lemma NormalIsFixed(m: Message)
    ensures Normal(Normal(m)) == Normal(m)
  {
    match m
    case SharedFileList(ds, ps) =>
      NormalDirectoriesFixed(ds);
      NormalDirectoriesFixed(ps);
    case FileSearchResponse(_, _, files, _, _, _, ps) =>
      NormalFilesFixed(files);
      NormalFilesFixed(ps);
    case FolderContents(_, _, folders) =>
      NormalDirectoriesFixed(folders);
    case _ =>
  }

  lemma DirectoriesTailIsNormal(s: seq<byte>)
    requires ReadTail(ReadDirectories, s).Ok?
    ensures NormalDirectories(ReadTail(ReadDirectories, s).value) == ReadTail(ReadDirectories, s).value
  {
    hide ReadDirectories;
    if s != [] && ReadU32(s).rest != [] {
      ReadDirectoriesIsNormal(ReadU32(s).rest);
    }
  }

  lemma FilesTailIsNormal(s: seq<byte>)
    requires ReadTail(ReadFiles, s).Ok?
    ensures NormalFiles(ReadTail(ReadFiles, s).value) == ReadTail(ReadFiles, s).value
  {
    hide ReadFiles;
    if s != [] && ReadU32(s).rest != [] {
      ReadFilesIsNormal(ReadU32(s).rest);
    }
  }

  lemma ListReadIsNormal(s: seq<byte>)
    requires ReadSharedFileList(s).Ok?
    ensures Normal(ReadSharedFileList(s).value) == ReadSharedFileList(s).value
  {
    hide ReadDirectories, ReadTail, NormalDirectories;
    ReadDirectoriesIsNormal(s);
    DirectoriesTailIsNormal(ReadDirectories(s).rest);
  }

  lemma SearchReadIsNormal(s: seq<byte>)
    requires ReadFileSearchResponse(s).Ok?
    ensures Normal(ReadFileSearchResponse(s).value) == ReadFileSearchResponse(s).value
  {
    hide ReadFiles, ReadTail, NormalFiles, ReadU32, ReadString, ReadBool;
    var s2 := ReadU32(ReadString(s).rest).rest;
    ReadFilesIsNormal(s2);
    FilesTailIsNormal(ReadU32(ReadU32(ReadBool(ReadFiles(s2).rest).rest).rest).rest);
  }

  lemma FolderReadIsNormal(s: seq<byte>)
    requires ReadFolderContents(s).Ok?
    ensures Normal(ReadFolderContents(s).value) == ReadFolderContents(s).value
  {
    hide ReadDirectories, NormalDirectories, ReadU32, ReadString;
    ReadDirectoriesIsNormal(ReadString(ReadU32(s).rest).rest);
  }

  /** Whatever bytes a message is decoded from, it is in normal form. */
  lemma DecodedIsNormal(code: u32, s: seq<byte>)
    requires ReadBody(code, s).Ok?
    ensures Normal(ReadBody(code, s).value) == ReadBody(code, s).value
  {
    hide ReadSharedFileList, ReadFileSearchResponse, ReadFolderContents, ReadString, ReadU32, ReadU64, ReadBool,
      ReadPicture;
    if code == SHARED_FILE_LIST {
      ListReadIsNormal(s);
    } else if code == FILE_SEARCH_RESPONSE {
      SearchReadIsNormal(s);
    } else if code == FOLDER_CONTENTS_RESPONSE {
      FolderReadIsNormal(s);
    }
  }

  /** A message decoded from any payload, sent on, arrives unchanged exactly when it is within the caps. */
  lemma ForwardedArrivesUnchanged(z: Zlib, cap: nat, payload: seq<byte>)
    requires z.Inverse() && cap < U32_LIMIT
    requires DecodePayload(z, payload).Success? && !DecodePayload(z, payload).value.Unknown?
    ensures var m := DecodePayload(z, payload).value;
      Delivers(z, cap, FrameOf(z, m), m) <==> Fits(z, cap, m)
  {
    hide Delivers, FrameOf, Fits, ReadBody, Normal, ReadU32, Decompress;
    var (code, rest) := (ReadU32(payload).value, ReadU32(payload).rest);
    DecodedIsNormal(code, if Compressed(code) then Decompress(z, rest).value else rest);
    FrameArrives(z, cap, DecodePayload(z, payload).value);
  }

  // ---- numbers on the wire, and what no encoder makes -----------------------------

  /** What a frame says it carries, after its length. */
  function WireCode(frame: seq<byte>): u32
    requires |frame| >= 8
  {
    BytesU32(frame[4..8])
  }

  /** Each variant has its own number on the wire, and three of them a compressed body. */
  lemma WireCodes(z: Zlib, m: Message)
    requires !m.Unknown?
    ensures var f := FrameOf(z, m);
      && |f| >= 8
      && (m.SharedFileListRequest? <==> WireCode(f) == 4) && (m.SharedFileList? <==> WireCode(f) == 5)
      && (m.FileSearchResponse? <==> WireCode(f) == 9) && (m.UserInfoRequest? <==> WireCode(f) == 15)
      && (m.UserInfoResponse? <==> WireCode(f) == 16) && (m.FolderContentsRequest? <==> WireCode(f) == 36)
      && (m.FolderContents? <==> WireCode(f) == 37) && (m.TransferRequest? <==> WireCode(f) == 40)
      && (m.TransferResponse? <==> WireCode(f) == 41) && (m.QueueUpload? <==> WireCode(f) == 43)
      && (m.PlaceInQueueResponse? <==> WireCode(f) == 44) && (m.UploadFailed? <==> WireCode(f) == 46)
      && (m.UploadDenied? <==> WireCode(f) == 50) && (m.PlaceInQueueRequest? <==> WireCode(f) == 51)
      && f[8..] == if m.SharedFileList? || m.FileSearchResponse? || m.FolderContents? then z.compress(Raw(m))
                   else Raw(m)
  {
    hide U32Bytes, Raw;
    var f := FrameOf(z, m);
    BytesOfU32(Code(m));
    assert f[4..8] == U32Bytes(Code(m));
    assert f[8..] == Body(z, m);
  }

  /** Bytes that follow a request, a path or a pair are ignored. */
  lemma LeftoversAreIgnored(z: Zlib, m: Message, t: seq<byte>)
    requires m.SharedFileListRequest? || m.UserInfoRequest? || m.TransferRequest? || m.FolderContentsRequest?
      || m.PlaceInQueueResponse? || m.UploadDenied? || m.QueueUpload? || m.PlaceInQueueRequest? || m.UploadFailed?
    requires |Raw(m)| < U32_LIMIT
    ensures DecodePayload(z, U32Bytes(Code(m)) + (Raw(m) + t)) == Success(Normal(m))
  {
    hide Raw, ReadU32, U32Bytes, ReadTransferRequest, ReadFolderContentsRequest, ReadPlaceInQueueResponse,
      ReadUploadDenied, ReadFileName;
    ReadU32Inverts(Code(m), Raw(m) + t);
    match m {
      case SharedFileListRequest =>
      case UserInfoRequest =>
      case TransferRequest(_, _, _, _) => TransferRequestInverts(m, t);
      case FolderContentsRequest(_, _) => PairInverts(m, t);
      case PlaceInQueueResponse(_, _) => PairInverts(m, t);
      case UploadDenied(_, _) => PairInverts(m, t);
      case _ => FileNameInverts(m, t);
    }
  }

  /**
   A compressed body is refused just when it inflates past the cap, or when it
   does not but its stream is broken; no other message depends on zlib.
   */
  lemma BrokenStreamsAreRefused(z: Zlib, y: Zlib, code: u32, body: seq<byte>)
    ensures code == 5 || code == 9 || code == 37 ==>
      var (i, r) := (z.inflate(body), DecodePayload(z, U32Bytes(code) + body));
      && (|i.output| > MAX_INFLATED_LEN ==> r == Failure(InvalidValue(InflatesPastCap)))
      && (|i.output| <= MAX_INFLATED_LEN && !i.clean ==> r == Failure(InvalidValue(ZlibFailed)))
      && (|i.output| <= MAX_INFLATED_LEN && i.clean ==> r == Verdict(ReadBody(code, i.output)))
    ensures code != 5 && code != 9 && code != 37 ==>
      DecodePayload(z, U32Bytes(code) + body) == DecodePayload(y, U32Bytes(code) + body)
  {
    hide ReadBody, ReadU32, U32Bytes;
    ReadU32Inverts(code, body);
  }

  /** A payload with any other number is kept whole; one with too few bytes for a number is refused. */
  lemma UnknownIsKept(z: Zlib, code: u32, body: seq<byte>, short: seq<byte>)
    requires |short| < 4
    ensures DecodePayload(z, U32Bytes(code) + body) == Success(Unknown(code, body)) <==>
      code !in {4, 5, 9, 15, 16, 36, 37, 40, 41, 43, 44, 46, 50, 51}
    ensures DecodePayload(z, short) == Failure(UnexpectedEof(4, |short|))
  {
    hide ReadU32, U32Bytes, ReadString, ReadU64, ReadBool, ReadPicture, ReadDirectories, ReadFiles, ReadTail,
      ReadUploadAllowed, ReadDirection;
    ReadU32Inverts(code, body);
    assert ReadU32(short) == Err(UnexpectedEof(4, |short|)) by {
      ShortU32(short);
    }
  }

  lemma ShortU32(s: seq<byte>)
    requires |s| < 4
    ensures ReadU32(s) == Err(UnexpectedEof(4, |s|))
  {
  }

  /** User information without its last field, or with only part of it, allows no uploads. */
  lemma AbsentFieldIsZero(z: Zlib, m: Message, part: seq<byte>)
    requires m.UserInfoResponse? && |Raw(m)| < U32_LIMIT && PictureFits(m) && |part| < 4
    ensures DecodePayload(z, U32Bytes(16) + (Raw(m)[..|Raw(m)| - 4] + part)) == Success(m.(uploadAllowed := 0))
  {
    hide ReadString, StringBytes, ReadU32, U32Bytes, ReadBool, BoolBytes, ReadPicture;
    var s4 := BoolBytes(m.slotsAvailable) + part;
    var s3 := U32Bytes(m.queueSize) + s4;
    var s2 := U32Bytes(m.totalUploads) + s3;
    var s1 := PictureBytes(m.picture) + s2;
    var s := StringBytes(m.description) + s1;
    StringInverts(m.description, s1);
    PictureInverts(m.picture, s2);
    ReadU32Inverts(m.totalUploads, s3);
    ReadU32Inverts(m.queueSize, s4);
    ReadBoolInverts(m.slotsAvailable, part);
    assert Raw(m)[..|Raw(m)| - 4] + part == s;
    ReadU32Inverts(16, s);
  }

  /** Only the directions 0 and 1 are known; 0 asks for a download, 1 offers an upload of a size. */
  lemma DirectionsAreKnown(z: Zlib, direction: u32, token: u32, file: string, size: u64, rest: seq<byte>)
    requires |Utf8.Encode(file)| < U32_LIMIT
    ensures direction > 1 ==>
      DecodePayload(z, U32Bytes(40) + (U32Bytes(direction) + rest))
      == Failure(InvalidValue(UnknownDirection(direction)))
    ensures var s := U32Bytes(40) + (U32Bytes(direction) + (U32Bytes(token) + (StringBytes(file) + U64Bytes(size))));
      && (direction == 0 ==> DecodePayload(z, s) == Success(TransferRequest(Download, token, file, None)))
      && (direction == 1 ==> DecodePayload(z, s) == Success(TransferRequest(Upload, token, file, Some(size))))
  {
    hide ReadString, StringBytes, ReadU32, U32Bytes, ReadU64, U64Bytes;
    var s2 := StringBytes(file) + U64Bytes(size);
    var s1 := U32Bytes(token) + s2;
    ReadU32Inverts(40, U32Bytes(direction) + rest);
    ReadU32Inverts(direction, rest);
    ReadU32Inverts(40, U32Bytes(direction) + s1);
    ReadU32Inverts(direction, s1);
    ReadU32Inverts(token, s2);
    StringInverts(file, U64Bytes(size));
    ReadU64Inverts(size, []);
    NothingLeft(U64Bytes(size));
  }

  // ---- the decoders over the cursor ------------------------------------------------

  method DecodeSharedFileList(r: Reader) returns (res: Result<Message, DecodeError>)
    requires r.Valid()
    modifies r
    ensures r.Follows(ReadSharedFileList(old(r.Unread())), res)
  {
    hide ReadDirectories, ReadU32;
    var directories :- DecodeDirectories(r);
    var empty := r.IsEmpty();
    if !empty {
      var _ :- r.U32();
    }
    var privateDirectories: seq<SharedDirectory> := [];
    empty := r.IsEmpty();
    if !empty {
      privateDirectories :- DecodeDirectories(r);
    }
    return Success(SharedFileList(directories, privateDirectories));
  }

  method DecodeFilesTail(r: Reader) returns (res: Result<seq<SharedFile>, DecodeError>)
    requires r.Valid()
    modifies r
    ensures r.Follows(ReadTail(ReadFiles, old(r.Unread())), res)
  {
    hide ReadFiles, ReadU32;
    var empty := r.IsEmpty();
    if !empty {
      var _ :- r.U32();
    }
    var privateFiles: seq<SharedFile> := [];
    empty := r.IsEmpty();
    if !empty {
      privateFiles :- DecodeFiles(r);
    }
    return Success(privateFiles);
  }

  method DecodeFileSearchResponse(r: Reader) returns (res: Result<Message, DecodeError>)
    requires r.Valid()
    modifies r
    ensures r.Follows(ReadFileSearchResponse(old(r.Unread())), res)
  {
    hide ReadFiles, ReadU32, ReadString, ReadBool, ReadTail;
    var username :- r.String();
    var token :- r.U32();
    var files :- DecodeFiles(r);
    var freeSlots :- r.Bool();
    var uploadSpeed :- r.U32();
    var inQueue :- r.U32();
    var privateFiles :- DecodeFilesTail(r);
    return Success(FileSearchResponse(username, token, files, freeSlots, uploadSpeed, inQueue, privateFiles));
  }

  method DecodeFolderContents(r: Reader) returns (res: Result<Message, DecodeError>)
    requires r.Valid()
    modifies r
    ensures r.Follows(ReadFolderContents(old(r.Unread())), res)
  {
    hide ReadDirectories, ReadU32, ReadString;
    var token :- r.U32();
    var directory :- r.String();
    var folders :- DecodeDirectories(r);
    return Success(FolderContents(token, directory, folders));
  }

  method DecodeUserInfoResponse(r: Reader) returns (res: Result<Message, DecodeError>)
    requires r.Valid()
    modifies r
    ensures r.Follows(ReadUserInfoResponse(old(r.Unread())), res)
  {
    hide ReadU32, ReadString, ReadBool, Take;
    var description :- r.String();
    var picture: Option<seq<byte>> := None;
    var present :- r.Bool();
    if present {
      var len :- r.U32();
      if len > MAX_PICTURE_LEN {
        return Failure(InvalidValue(PictureTooLarge(len)));
      }
      var b :- r.TakeBytes(len);
      picture := Some(b);
    }
    var totalUploads :- r.U32();
    var queueSize :- r.U32();
    var slotsAvailable :- r.Bool();
    var uploadAllowed: u32 := 0;
    var remaining := r.Remaining();
    if remaining >= 4 {
      uploadAllowed :- r.U32();
    }
    return Success(UserInfoResponse(description, picture, totalUploads, queueSize, slotsAvailable, uploadAllowed));
  }

  method DecodeTransferRequest(r: Reader) returns (res: Result<Message, DecodeError>)
    requires r.Valid()
    modifies r
    ensures r.Follows(ReadTransferRequest(old(r.Unread())), res)
  {
    hide ReadU32, ReadString, ReadU64;
    var d :- r.U32();
    if d > 1 {
      return Failure(InvalidValue(UnknownDirection(d)));
    }
    var token :- r.U32();
    var file :- r.String();
    if d == 1 {
      var size :- r.U64();
      return Success(TransferRequest(Upload, token, file, Some(size)));
    }
    return Success(TransferRequest(Download, token, file, None));
  }

  method DecodeTransferResponse(r: Reader) returns (res: Result<Message, DecodeError>)
    requires r.Valid()
    modifies r
    ensures r.Follows(ReadTransferResponse(old(r.Unread())), res)
  {
    hide ReadU32, ReadString, ReadU64, ReadBool;
    var token :- r.U32();
    var allowed :- r.Bool();
    var empty := r.IsEmpty();
    if empty {
      return Success(TransferResponse(token, allowed, None, None));
    }
    if allowed {
      var size :- r.U64();
      return Success(TransferResponse(token, allowed, Some(size), None));
    }
    var reason :- r.String();
    return Success(TransferResponse(token, allowed, None, Some(reason)));
  }

  method DecodeFlat(code: u32, r: Reader) returns (res: Result<Message, DecodeError>)
    requires r.Valid()
    requires code in {FOLDER_CONTENTS_REQUEST, PLACE_IN_QUEUE_RESPONSE, UPLOAD_DENIED, QUEUE_UPLOAD,
                      PLACE_IN_QUEUE_REQUEST, UPLOAD_FAILED}
    modifies r
    ensures r.Follows(ReadBody(code, old(r.Unread())), res)
  {
    hide ReadU32, ReadString;
    if code == FOLDER_CONTENTS_REQUEST {
      var token :- r.U32();
      var directory :- r.String();
      return Success(FolderContentsRequest(token, directory));
    }
    var file :- r.String();
    if code == PLACE_IN_QUEUE_RESPONSE {
      var place :- r.U32();
      return Success(PlaceInQueueResponse(file, place));
    }
    if code == UPLOAD_DENIED {
      var reason :- r.String();
      return Success(UploadDenied(file, reason));
    }
    if code == QUEUE_UPLOAD {
      return Success(QueueUpload(file));
    }
    if code == PLACE_IN_QUEUE_REQUEST {
      return Success(PlaceInQueueRequest(file));
    }
    return Success(UploadFailed(file));
  }

  method DecodeInflated(code: u32, raw: seq<byte>) returns (res: Result<Message, DecodeError>)
    requires Compressed(code)
    ensures res == Verdict(ReadBody(code, raw))
  {
    hide ReadSharedFileList, ReadFileSearchResponse, ReadFolderContents;
    var inner := new Reader(raw);
    assert inner.Unread() == raw;
    if code == SHARED_FILE_LIST {
      res := DecodeSharedFileList(inner);
    } else if code == FILE_SEARCH_RESPONSE {
      res := DecodeFileSearchResponse(inner);
    } else {
      res := DecodeFolderContents(inner);
    }
  }

  method DecodePlain(code: u32, r: Reader) returns (res: Result<Message, DecodeError>)
    requires r.Valid() && !Compressed(code)
    modifies r
    ensures res == Verdict(ReadBody(code, old(r.Unread())))
  {
    hide ReadUserInfoResponse, ReadTransferRequest, ReadTransferResponse, ReadFolderContentsRequest,
      ReadPlaceInQueueResponse, ReadUploadDenied, ReadFileName;
    if code == GET_SHARED_FILE_LIST {
      return Success(SharedFileListRequest);
    } else if code == USER_INFO_REQUEST {
      return Success(UserInfoRequest);
    } else if code == USER_INFO_RESPONSE {
      res := DecodeUserInfoResponse(r);
    } else if code == TRANSFER_REQUEST {
      res := DecodeTransferRequest(r);
    } else if code == TRANSFER_RESPONSE {
      res := DecodeTransferResponse(r);
    } else if code in {FOLDER_CONTENTS_REQUEST, PLACE_IN_QUEUE_RESPONSE, UPLOAD_DENIED, QUEUE_UPLOAD,
                       PLACE_IN_QUEUE_REQUEST, UPLOAD_FAILED} {
      res := DecodeFlat(code, r);
    } else {
      var body := r.Rest();
      return Success(Unknown(code, body));
    }
  }

  /** Decodes a frame payload, dispatching on its code. */
  method Decode(z: Zlib, payload: seq<byte>) returns (res: Result<Message, DecodeError>)
    ensures res == DecodePayload(z, payload)
  {
    hide ReadBody, Decompress, ReadU32, Compressed;
    var r := new Reader(payload);
    assert r.Unread() == payload;
    var code :- r.U32();
    if Compressed(code) {
      var compressed := r.Rest();
      var raw :- Decompress(z, compressed);
      res := DecodeInflated(code, raw);
    } else {
      res := DecodePlain(code, r);
    }
  }

  // ---- the encoders over the buffer --------------------------------------------------

  lemma NothingLeft(done: seq<byte>)
    ensures done + [] == done && [] + done == done
  {
  }

  method EncodeSharedFileList(m: Message) returns (raw: seq<byte>)
    requires m.SharedFileList?
    ensures raw == Raw(m)
  {
    hide U32Bytes, DirectoriesBytes;
    var buf := new Buffer();
    NothingLeft(DirectoriesBytes(m.directories));
    NothingLeft(DirectoriesBytes(m.directories) + U32Bytes(0));
    NothingLeft(U32Bytes(0));
    WriteDirectories(buf, m.directories);
    buf.PutU32(0);
    if m.privateDirectories != [] {
      AppendAssoc(DirectoriesBytes(m.directories), U32Bytes(0), DirectoriesBytes(m.privateDirectories));
      WriteDirectories(buf, m.privateDirectories);
    }
    raw := buf.data;
  }

  method EncodeFileSearchResponse(m: Message) returns (raw: seq<byte>)
    requires m.FileSearchResponse?
    ensures raw == Raw(m)
  {
    hide StringBytes, U32Bytes, BoolBytes, FilesBytes;
    ghost var tail := TailBytes(if m.privateFiles == [] then [] else FilesBytes(m.privateFiles));
    ghost var s5 := U32Bytes(m.inQueue) + tail;
    ghost var s4 := U32Bytes(m.uploadSpeed) + s5;
    ghost var s3 := BoolBytes(m.freeSlots) + s4;
    ghost var s2 := FilesBytes(m.files) + s3;
    ghost var s1 := U32Bytes(m.token) + s2;
    var buf := new Buffer();
    NothingLeft(StringBytes(m.username));
    buf.PutString(m.username);
    AppendAssoc(buf.data, U32Bytes(m.token), s2);
    buf.PutU32(m.token);
    AppendAssoc(buf.data, FilesBytes(m.files), s3);
    WriteFiles(buf, m.files);
    AppendAssoc(buf.data, BoolBytes(m.freeSlots), s4);
    buf.PutBool(m.freeSlots);
    AppendAssoc(buf.data, U32Bytes(m.uploadSpeed), s5);
    buf.PutU32(m.uploadSpeed);
    AppendAssoc(buf.data, U32Bytes(m.inQueue), tail);
    buf.PutU32(m.inQueue);
    assert buf.data + tail == Raw(m);
    AppendAssoc(buf.data, U32Bytes(0), if m.privateFiles == [] then [] else FilesBytes(m.privateFiles));
    buf.PutU32(0);
    NothingLeft(buf.data);
    if m.privateFiles != [] {
      WriteFiles(buf, m.privateFiles);
    }
    raw := buf.data;
  }

  method WritePicture(buf: Buffer, picture: Option<seq<byte>>)
    modifies buf
    ensures buf.data == old(buf.data) + PictureBytes(picture)
  {
    hide U32Bytes, BoolBytes;
    ghost var before := buf.data;
    match picture {
      case Some(b) =>
        buf.PutBool(true);
        buf.PutU32(Truncate32(|b|));
        buf.Extend(b);
        AppendAssoc(before + BoolBytes(true), U32Bytes(Truncate32(|b|)), b);
        AppendAssoc(before, BoolBytes(true), U32Bytes(Truncate32(|b|)) + b);
      case None =>
        buf.PutBool(false);
    }
  }

  method EncodeUserInfoResponse(m: Message) returns (raw: seq<byte>)
    requires m.UserInfoResponse?
    ensures raw == Raw(m)
  {
    hide StringBytes, U32Bytes, BoolBytes, PictureBytes;
    ghost var s5 := U32Bytes(m.uploadAllowed);
    ghost var s4 := BoolBytes(m.slotsAvailable) + s5;
    ghost var s3 := U32Bytes(m.queueSize) + s4;
    ghost var s2 := U32Bytes(m.totalUploads) + s3;
    var buf := new Buffer();
    NothingLeft(StringBytes(m.description));
    buf.PutString(m.description);
    AppendAssoc(buf.data, PictureBytes(m.picture), s2);
    WritePicture(buf, m.picture);
    AppendAssoc(buf.data, U32Bytes(m.totalUploads), s3);
    buf.PutU32(m.totalUploads);
    AppendAssoc(buf.data, U32Bytes(m.queueSize), s4);
    buf.PutU32(m.queueSize);
    AppendAssoc(buf.data, BoolBytes(m.slotsAvailable), s5);
    buf.PutBool(m.slotsAvailable);
    buf.PutU32(m.uploadAllowed);
    raw := buf.data;
  }

  method EncodeTransferRequest(m: Message) returns (raw: seq<byte>)
    requires m.TransferRequest?
    ensures raw == Raw(m)
  {
    hide StringBytes, U32Bytes, U64Bytes;
    var direction: u32 := if m.direction == Download then 0 else 1;
    ghost var s3 := if m.direction == Download then [] else U64Bytes(if m.filesize.Some? then m.filesize.value else 0);
    ghost var s2 := StringBytes(m.file) + s3;
    var buf := new Buffer();
    NothingLeft(U32Bytes(direction));
    buf.PutU32(direction);
    AppendAssoc(buf.data, U32Bytes(m.token), s2);
    buf.PutU32(m.token);
    AppendAssoc(buf.data, StringBytes(m.file), s3);
    buf.PutString(m.file);
    NothingLeft(buf.data);
    if m.direction == Upload {
      buf.PutU64(if m.filesize.Some? then m.filesize.value else 0);
    }
    raw := buf.data;
  }

  method EncodeTransferResponse(m: Message) returns (raw: seq<byte>)
    requires m.TransferResponse?
    ensures raw == Raw(m)
  {
    hide StringBytes, U32Bytes, U64Bytes, BoolBytes;
    ghost var s2 :=
      if m.allowed then if m.filesize.Some? then U64Bytes(m.filesize.value) else []
      else if m.refusal.Some? then StringBytes(m.refusal.value) else [];
    var buf := new Buffer();
    NothingLeft(U32Bytes(m.token));
    buf.PutU32(m.token);
    AppendAssoc(buf.data, BoolBytes(m.allowed), s2);
    buf.PutBool(m.allowed);
    NothingLeft(buf.data);
    if m.allowed {
      if m.filesize.Some? {
        buf.PutU64(m.filesize.value);
      }
    } else if m.refusal.Some? {
      buf.PutString(m.refusal.value);
    }
    raw := buf.data;
  }

  method EncodeFolderContents(m: Message) returns (raw: seq<byte>)
    requires m.FolderContents?
    ensures raw == Raw(m)
  {
    hide StringBytes, U32Bytes, DirectoriesBytes;
    var buf := new Buffer();
    NothingLeft(U32Bytes(m.token));
    buf.PutU32(m.token);
    AppendAssoc(buf.data, StringBytes(m.directory), DirectoriesBytes(m.folders));
    buf.PutString(m.directory);
    WriteDirectories(buf, m.folders);
    raw := buf.data;
  }

  method EncodeFlat(m: Message) returns (raw: seq<byte>)
    requires m.FolderContentsRequest? || m.PlaceInQueueResponse? || m.UploadDenied?
             || m.QueueUpload? || m.PlaceInQueueRequest? || m.UploadFailed?
    ensures raw == Raw(m)
  {
    hide StringBytes, U32Bytes;
    var buf := new Buffer();
    match m {
      case FolderContentsRequest(token, directory) =>
        NothingLeft(U32Bytes(token));
        buf.PutU32(token);
        buf.PutString(directory);
      case PlaceInQueueResponse(file, place) =>
        NothingLeft(StringBytes(file));
        buf.PutString(file);
        buf.PutU32(place);
      case UploadDenied(file, reason) =>
        NothingLeft(StringBytes(file));
        buf.PutString(file);
        buf.PutString(reason);
      case QueueUpload(file) =>
        NothingLeft(StringBytes(file));
        buf.PutString(file);
      case PlaceInQueueRequest(file) =>
        NothingLeft(StringBytes(file));
        buf.PutString(file);
      case UploadFailed(file) =>
        NothingLeft(StringBytes(file));
        buf.PutString(file);
    }
    raw := buf.data;
  }

  method ToFrame(z: Zlib, m: Message) returns (frame: seq<byte>)
    requires !m.Unknown?
    ensures frame == FrameOf(z, m)
  {
    hide FrameU32;
    var raw: seq<byte>;
    match m {
      case SharedFileListRequest => raw := [];
      case UserInfoRequest => raw := [];
      case SharedFileList(_, _) => raw := EncodeSharedFileList(m);
      case FileSearchResponse(_, _, _, _, _, _, _) => raw := EncodeFileSearchResponse(m);
      case FolderContents(_, _, _) => raw := EncodeFolderContents(m);
      case UserInfoResponse(_, _, _, _, _, _) => raw := EncodeUserInfoResponse(m);
      case TransferRequest(_, _, _, _) => raw := EncodeTransferRequest(m);
      case TransferResponse(_, _, _, _) => raw := EncodeTransferResponse(m);
      case _ => raw := EncodeFlat(m);
    }
    var body := if Compressed(Code(m)) then z.compress(raw) else raw;
    frame := BuildFrameU32(Code(m), body);
  }
}
