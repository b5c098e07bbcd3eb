/** The avatar upload middleware: a single file under a named form field,
    accepted only for three image MIME types and up to 5 MiB, stored on disk
    under the client's own file name. */
module Upload {
  import opened Basics
  import opened Api

  /** `MAX_FILE_SIZE`: 5 MiB in bytes. */
  const MaxFileSize: nat := 1024 * 1024 * 5

  const AllowedMimes: seq<string> := ["image/jpeg", "image/png", "image/gif"]

  /** Directory the disk storage writes to, relative to the server's working
      directory. */
  const UploadDir := "backend/public/temp"

  /** One file part of a multipart request, as the client sent it. */
  datatype FilePart = FilePart(fieldName: string, originalName: string, mimeType: string, size: nat)

  /** The file as stored: its directory and file name. */
  datatype StoredFile = StoredFile(destination: string, fileName: string)

  /** `Array.prototype.join`: the elements with `sep` between neighbours. */
  function Join(xs: seq<string>, sep: string): (r: string)
    ensures |xs| == 0 ==> r == ""
    ensures |xs| == 1 ==> r == xs[0]
    ensures |xs| > 0 ==> xs[0] <= r
  {
    if |xs| == 0 then ""
    else if |xs| == 1 then xs[0]
    else xs[0] + sep + Join(xs[1..], sep)
  }

  const InvalidTypeMessage := "Invalid file type. Only " + Join(AllowedMimes, ", ") + " files are allowed."

  /** The rejection message names the three allowed types in order. */
  lemma InvalidTypeMessageText()
    ensures Join(AllowedMimes, ", ") == "image/jpeg, image/png, image/gif"
    ensures InvalidTypeMessage == "Invalid file type. Only " + "image/jpeg, image/png, image/gif" + " files are allowed."
  {
    var tail := AllowedMimes[1..];
    assert tail[1..] == ["image/gif"];
    assert Join(tail, ", ") == "image/png, image/gif";
    var joined := Join(AllowedMimes, ", ");
    assert joined == "image/jpeg" + ", " + "image/png, image/gif";
  }

  /** `fileFilter(allowedMimes)`: accept a listed MIME type, otherwise reject
      with a 400 `ApiError` naming every allowed type. */
  function FileFilter(allowed: seq<string>, mimeType: string): (r: Result<bool, Error>)
    ensures r.Success? <==> mimeType in allowed
    ensures r.Success? ==> r.value
    ensures r.Failure? ==> r.error == ApiError(400, "Invalid file type. Only " + Join(allowed, ", ") + " files are allowed.")
  {
    if mimeType in allowed then Success(true)
    else Failure(ApiError(400, "Invalid file type. Only " + Join(allowed, ", ") + " files are allowed."))
  }

  /** `upload.single(field)`: no file leaves the request without one; a file
      under another field name, a disallowed type or an oversized file stops
      the request. Multer reports the unexpected field and the size limit
      with its own errors (not `ApiError`s), which `stack` stands for. */
  function Single(field: string, file: Option<FilePart>, stack: string): (r: Result<Option<StoredFile>, Error>)
    ensures file.None? ==> r == Success(None)
    ensures r.Success? && r.value.Some? ==> file.Some? && r.value.value.fileName == file.value.originalName
    ensures r.Success? && r.value.Some? ==> r.value.value.destination == UploadDir
  {
    match file
    case None => Success(None)
    case Some(part) =>
      if part.fieldName != field then Failure(OtherError("Unexpected field", stack))
      else match FileFilter(AllowedMimes, part.mimeType)
        case Failure(err) => Failure(err)
        case Success(_) =>
          if part.size > MaxFileSize then Failure(OtherError("File too large", stack))
          else Success(Some(StoredFile(UploadDir, part.originalName)))
  }

  /** A file under the expected field is stored exactly when its type is one
      of image/jpeg, image/png or image/gif and it is at most 5,242,880 bytes;
      a wrong type is a 400 whatever the size; an oversized file of a good
      type ends as a 500 from the error handler. */
  lemma SingleVerdict(field: string, part: FilePart, stack: string, nodeEnv: Option<string>)
    requires part.fieldName == field
    ensures Single(field, Some(part), stack).Success? <==>
      (part.mimeType == "image/jpeg" || part.mimeType == "image/png" || part.mimeType == "image/gif")
      && part.size <= 5242880
    ensures !(part.mimeType in AllowedMimes) ==>
      ErrorHandler<()>(Single(field, Some(part), stack).error, nodeEnv)
      == Reply(400, Envelope(Some(false), "Invalid file type. Only " + "image/jpeg, image/png, image/gif" + " files are allowed.", None, None))
    ensures part.mimeType in AllowedMimes && part.size > 5242880 ==>
      ErrorHandler<()>(Single(field, Some(part), stack).error, nodeEnv).status == 500
  {
    InvalidTypeMessageText();
  }

  /** A file sent under any other field name is refused before its type or
      size is looked at. */
  lemma UnexpectedFieldRefused(field: string, part: FilePart, stack: string)
    requires part.fieldName != field
    ensures Single(field, Some(part), stack).Failure?
    ensures Single(field, Some(part), stack).error.OtherError?
  {
  }
}
