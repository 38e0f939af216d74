/**
 * The web front end: the upload extension check, conversion of an uploaded HEIC file to JPEG
 * bytes, the quality form field, the download name, and the `/convert` handler's use of the upload
 * folder, where the uploaded file is saved for the decoder and removed again on every path.
 */
module WebApp {
  import opened Common
  import opened PurePaths
  import opened Pixels
  import opened Quality

  const AllowedExtensions: set<string> := {"heic", "HEIC"}
  const NoFileMessage := "Dosya seçilmedi"
  const OnlyHeicMessage := "Sadece HEIC dosyaları desteklenir"
  const ErrorPrefix := "Dönüştürme hatası: "
  const JpegMimeType := "image/jpeg"

  /** `c.lower()` on the ASCII letters; every other character is kept. */
  function LowerChar(c: char): char {
    if 'A' <= c <= 'Z' then (c as int + 32) as char else c
  }

  /**
   * `s.lower()`. Only ASCII letters are folded: no other character lower-cases to one of the letters
   * of "heic", so the extension check below decides exactly as Python's full lower-casing does.
   */
  function Lower(s: string): (r: string)
    ensures |r| == |s|
    ensures forall i :: 0 <= i < |s| ==> r[i] == LowerChar(s[i])
  {
    seq(|s|, i requires 0 <= i < |s| => LowerChar(s[i]))
  }

  /** `allowed_file`: the name has a dot and the text after its last dot, lower-cased, is an allowed extension. */
  function AllowedFile(filename: string): (ok: bool)
    ensures ok ==> LastDot(filename) == |filename| - 5
  {
    var i := LastDot(filename);
    i >= 0 && Lower(filename[i + 1..]) in AllowedExtensions
  }

  lemma LowerIsNeverUpper(s: string)
    ensures Lower(s) != "HEIC"
  {
    if |s| == 4 {
      assert Lower(s)[0] == LowerChar(s[0]) != 'H';
    }
  }

  /**
   * A name is accepted exactly when it ends in a dot followed by "heic" in any mix of cases: the
   * last dot must then be the fifth character from the end.
   */
  lemma {:induction false} AllowedFileShape(filename: string)
    ensures AllowedFile(filename) <==>
      |filename| >= 5 && filename[|filename| - 5] == '.' && Lower(filename[|filename| - 4..]) == "heic"
  {
    var n := |filename|;
    var i := LastDot(filename);
    if i >= 0 {
      LowerIsNeverUpper(filename[i + 1..]);
    }
    if n >= 5 && filename[n - 5] == '.' && Lower(filename[n - 4..]) == "heic" {
      var tail := filename[n - 4..];
      forall j | n - 5 < j < n
        ensures filename[j] != '.'
      {
        assert filename[j] == tail[j - (n - 4)];
        assert Lower(tail)[j - (n - 4)] == LowerChar(tail[j - (n - 4)]);
      }
      assert i == n - 5;
    }
  }

  /** Any name ending in a dot and "heic" in any mix of cases is accepted ("x.HeIc"). */
  lemma AcceptsAnyCase(stem: string, ext: string)
    requires Lower(ext) == "heic"
    ensures AllowedFile(stem + "." + ext)
  {
    var f := stem + "." + ext;
    assert f[|f| - 4..] == ext;
    assert f[|f| - 5] == '.';
    AllowedFileShape(f);
  }

  /** Only the text after the last dot counts: "x.heic.png" is rejected. */
  lemma RejectsOtherLastExtension(name: string, ext: string)
    requires '.' !in ext && Lower(ext) != "heic"
    ensures !AllowedFile(name + "." + ext)
  {
    var f := name + "." + ext;
    var i := LastDot(f);
    assert f[|name|] == '.';
    assert f[|name| + 1..] == ext;
    assert forall j :: |name| < j < |f| ==> f[j] == ext[j - |name| - 1];
    assert i == |name|;
    assert f[i + 1..] == ext;
    LowerIsNeverUpper(ext);
  }

  /** A name without a dot is rejected, even "heic" itself. */
  lemma RejectsNoDot(name: string)
    requires '.' !in name
    ensures !AllowedFile(name)
  {
  }

  /**
   * `convert_heic_to_jpg_bytes`: decode, normalise to RGB, encode at `quality`; a failure of the
   * codec is re-raised with its message behind the conversion-error prefix.
   */
  function ConvertBytes(content: Bytes, quality: int, codec: Codec): (r: Result<Bytes, string>)
    ensures r.Ok? <==>
      codec.open(content).Ok? && codec.encode(NormaliseForJpeg(codec.open(content).value), quality).Ok?
    ensures r.Ok? ==> r.value == codec.encode(NormaliseForJpeg(codec.open(content).value), quality).value
    ensures r.Err? ==> StartsWith(r.error, ErrorPrefix)
    ensures codec.open(content).Err? ==> r == Err(ErrorPrefix + codec.open(content).error)
    ensures codec.open(content).Ok? && codec.encode(NormaliseForJpeg(codec.open(content).value), quality).Err? ==>
      r == Err(ErrorPrefix + codec.encode(NormaliseForJpeg(codec.open(content).value), quality).error)
  {
    match codec.open(content)
    case Err(message) => Err(ErrorPrefix + message)
    case Ok(image) =>
      match codec.encode(NormaliseForJpeg(image), quality)
      case Err(message) => Err(ErrorPrefix + message)
      case Ok(data) => Ok(data)
  }

  /** The text of the ValueError `int()` raises for a non-integer string (Python's quoting of it aside). */
  function InvalidLiteral(s: string): string {
    "invalid literal for int() with base 10: '" + s + "'"
  }

  /**
   * `int(request.form.get('quality', 95))` followed by the range check: a missing field gives 95, an
   * integer outside [1,100] gives 95, and a field that is not an integer raises.
   */
  function FormQuality(field: Option<string>): (r: Result<int, string>)
    ensures r.Ok? ==> 1 <= r.value <= 100
    ensures field.None? ==> r == Ok(DefaultQuality)
    ensures field.Some? ==> (r.Err? <==> ParseInt(field.value).None?)
    ensures field.Some? && ParseInt(field.value).Some? && 1 <= ParseInt(field.value).value <= 100 ==>
      r == Ok(ParseInt(field.value).value)
    ensures field.Some? && ParseInt(field.value).Some? && !(1 <= ParseInt(field.value).value <= 100) ==>
      r == Ok(DefaultQuality)
  {
    if field.None? then Ok(Sanitize(DefaultQuality))
    else
      match ParseInt(field.value)
      case None => Err(InvalidLiteral(field.value))
      case Some(n) => Ok(Sanitize(n))
  }

  /** `Path(filename).stem + '.jpg'`: a bare file name, without any directory, ending in ".jpg". */
  function DownloadName(filename: string): (r: string)
    ensures EndsWith(r, JpgSuffix) && '/' !in r
  {
    Stem(Name(ParsePath(filename))) + JpgSuffix
  }

  /** For a plain file name the download name keeps its stem and carries the suffix ".jpg". */
  lemma {:induction false} DownloadNameKeepsStem(filename: string)
    requires filename != "" && filename != "." && '/' !in filename
    ensures DownloadName(filename) == Stem(filename) + JpgSuffix
    ensures Stem(DownloadName(filename)) == Stem(filename) && Suffix(DownloadName(filename)) == JpgSuffix
  {
    ParsePlainName(filename);
    StemSuffixSplit(filename);
    StemOfAppendedSuffix(Stem(filename), JpgSuffix);
  }

  /** Uploading "photo.HEIC" or "photo.heic" offers "photo.jpg". */
  lemma DownloadNameOfHeicUpload(stem: string, ext: string)
    requires stem != "" && '/' !in stem && IsSuffixToken(ext) && '/' !in ext
    ensures DownloadName(stem + ext) == stem + JpgSuffix
  {
    var name := stem + ext;
    StemOfAppendedSuffix(stem, ext);
    assert name[0] == stem[0];
    assert '/' !in name by {
      forall j | 0 <= j < |name|
        ensures name[j] != '/'
      {
        if j < |stem| { assert name[j] == stem[j]; } else { assert name[j] == ext[j - |stem|]; }
      }
    }
    assert |name| >= 3;
    DownloadNameKeepsStem(name);
  }

  datatype Upload = Upload(filename: string, content: Bytes)

  /** The parts of a `/convert` request the handler reads: the `file` field and the `quality` form field. */
  datatype Request = Request(file: Option<Upload>, quality: Option<string>)

  datatype Response =
    | Attachment(data: Bytes, mimeType: string, downloadName: string)
    | JsonError(status: int, message: string)
    | Unhandled  // an exception escaped the handler: Flask answers 500 with its own error page

  /** The request passes the three checks made before anything is saved. */
  predicate Validated(req: Request) {
    req.file.Some? && req.file.value.filename != "" && AllowedFile(req.file.value.filename)
  }

  /** The handler gets as far as choosing the path in the upload folder. */
  predicate ReachesSave(req: Request) {
    Validated(req) && FormQuality(req.quality).Ok?
  }

  /**
   * The handler saves the upload under a real name: `secure_filename` left something of the name.
   * Otherwise the save path is the upload folder itself.
   */
  predicate SavesUpload(req: Request, sanitize: string -> string) {
    ReachesSave(req) && sanitize(req.file.value.filename) != ""
  }

  /**
   * The response of `/convert`, given the filename sanitiser, the outcome of saving the upload
   * (None when it succeeds, else the error's message) and the codec. When the sanitised name is
   * empty, saving to the upload folder itself fails, and the clean-up then calls `unlink()` on that
   * folder, which raises inside the handler.
   */
  function Respond(req: Request, sanitize: string -> string, saveError: Option<string>, codec: Codec): (resp: Response)
    ensures resp == JsonError(400, NoFileMessage) <==> req.file.None? || req.file.value.filename == ""
    ensures resp == JsonError(400, OnlyHeicMessage) <==>
      req.file.Some? && req.file.value.filename != "" && !AllowedFile(req.file.value.filename)
    ensures resp.JsonError? ==> resp.status == 400 || resp.status == 500
    ensures resp.JsonError? && resp.status == 400 <==> !Validated(req)
    ensures Validated(req) && FormQuality(req.quality).Err? ==> resp == JsonError(500, FormQuality(req.quality).error)
    ensures resp.Unhandled? <==> ReachesSave(req) && sanitize(req.file.value.filename) == ""
    ensures resp.Attachment? ==>
      SavesUpload(req, sanitize) && saveError.None? && resp.mimeType == JpegMimeType &&
      resp.downloadName == DownloadName(sanitize(req.file.value.filename)) &&
      ConvertBytes(req.file.value.content, FormQuality(req.quality).value, codec) == Ok(resp.data)
    ensures SavesUpload(req, sanitize) && saveError.None? && ConvertBytes(req.file.value.content, FormQuality(req.quality).value, codec).Ok? ==>
      resp.Attachment?
    ensures SavesUpload(req, sanitize) && saveError.Some? ==> resp == JsonError(500, saveError.value)
    ensures SavesUpload(req, sanitize) && saveError.None? && ConvertBytes(req.file.value.content, FormQuality(req.quality).value, codec).Err? ==>
      resp == JsonError(500, ConvertBytes(req.file.value.content, FormQuality(req.quality).value, codec).error)
  {
    if req.file.None? || req.file.value.filename == "" then JsonError(400, NoFileMessage)
    else if !AllowedFile(req.file.value.filename) then JsonError(400, OnlyHeicMessage)
    else
      match FormQuality(req.quality)
      case Err(message) => JsonError(500, message)
      case Ok(quality) =>
        var name := sanitize(req.file.value.filename);
        if name == "" then Unhandled
        else if saveError.Some? then JsonError(500, saveError.value)
        else
          match ConvertBytes(req.file.value.content, quality, codec)
          case Err(message) => JsonError(500, message)
          case Ok(data) => Attachment(data, JpegMimeType, DownloadName(name))
  }

  /** The upload folder: the files in it by name, with their contents. */
  class UploadFolder {
    var files: map<string, Bytes>

    /** A file in the folder has a non-empty name. */
    predicate Valid()
      reads this
    {
      "" !in files
    }

    /**
     * `convert`: the three rejections come before the upload is saved; once a path in the folder has
     * been chosen, the file there is removed on success and on failure alike. An empty sanitised name
     * names the folder itself, which is neither written nor removed.
     */
    method Convert(req: Request, sanitize: string -> string, saveError: Option<string>, codec: Codec)
      returns (resp: Response)
      requires Valid()
      modifies this
      ensures Valid()
      ensures resp == Respond(req, sanitize, saveError, codec)
      ensures !SavesUpload(req, sanitize) ==> files == old(files)
      ensures ReachesSave(req) ==> files == old(files) - {sanitize(req.file.value.filename)}
    {
      if req.file.None? {
        return JsonError(400, NoFileMessage);
      }
      var upload := req.file.value;
      if upload.filename == "" {
        return JsonError(400, NoFileMessage);
      }
      if !AllowedFile(upload.filename) {
        return JsonError(400, OnlyHeicMessage);
      }
      var quality := FormQuality(req.quality);
      if quality.Err? {
        return JsonError(500, quality.error);
      }
      var name := sanitize(upload.filename);
      if name == "" {
        return Unhandled;
      }
      if saveError.Some? {
        if name in files {
          files := files - {name};
        }
        return JsonError(500, saveError.value);
      }
      files := files[name := upload.content];
      var converted := ConvertBytes(files[name], quality.value, codec);
      if converted.Err? {
        if name in files {
          files := files - {name};
        }
        return JsonError(500, converted.error);
      }
      files := files - {name};
      resp := Attachment(converted.value, JpegMimeType, DownloadName(name));
    }
  }
}
