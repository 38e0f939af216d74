# heictojpg, modelled in Dafny

heictojpg converts HEIC photos to JPEG. It has two front ends:

- a command-line converter (`heic_to_jpg.py`). It converts one file, or every `.heic`/`.HEIC` file in a directory, optionally recursively and into a mirrored output tree.
- a Flask web handler (`app.py`). It accepts an upload, checks its extension, saves it to an upload folder, converts it to JPEG bytes, removes the saved file again and answers with the JPEG as an attachment.

Both front ends flatten images that have transparency or a palette onto a white RGB canvas before encoding. They also share one quality rule: an integer outside 1–100 falls back to 95.

The model consists of these modules:

- `Common` (`common.dfy`): `Option`, `Result`, bytes, prefix and suffix tests, and the length of the text before a separator.
- `PurePaths` (`pure_paths.dfy`): the part of pathlib the converter uses. This covers a path as its sequence of parts, `name`, `parent`, `stem`, `suffix`, `with_suffix`, `relative_to`, `Path(str)`, and `str.rfind('.')`.
- `Pixels` (`pixels.dfy`): the pixel-mode normalisation shared by both front ends. The image library is injected as a `Codec`, which has a decoder and a JPEG encoder that may each fail. The mode conversions and pastes are recorded symbolically, so what the converter asks of the library can be stated.
- `Quality` (`quality.dfy`): `int()` on user text and the range rule.
- `Cli` (`cli.dfy`), covering `heic_to_jpg.py`:
  - the file system is the class `Disk`, with a map from file paths to contents and a set of directories;
  - converting one file, the directory batch, the argument loop and `main` are methods on it;
  - each method is proved against a specification function (`ConvertOutcome`, `MakeDirs`, `RunBatch`, `DirectoryRun`, `FinalQuality`, `FirstPositional`).
- `WebApp` (`web_app.dfy`), covering `app.py`:
  - `allowed_file`, the byte conversion, the quality form field, the download name and the response of `/convert`;
  - the upload folder is the class `UploadFolder`, whose `Convert` method is proved to give the response `Respond` describes and to leave the folder without the saved upload. No file in the folder has an empty name.

## Notes on the code's behaviour

- A web request whose quality field is not an integer gets a 500 response with the `int()` error. It does not fall back to 95.
- On the command line, a `--quality=` value that is not an integer leaves the quality as it was. That is 95 only when no earlier flag set it.
- There is no WebP output. Both front ends only write JPEG.
- The web check accepts `.heic` in any mix of cases, because the extension is lower-cased. The `HEIC` entry of the allowed set can never match (`WebApp.LowerIsNeverUpper`).
- The command line exits with status 0 when the input is a file, even if its conversion failed.
- For a directory, the status is 1 when a `mkdir` raises. That can be the `mkdir` of the output root or the one for a target's parent directory. A `mkdir` raises when a regular file stands where the directory is needed, and the exception is not caught. Otherwise the status is 0.

## Model

| member | source | states |
|---|---|---|
| PurePaths.NameParentSplit | heic_to_jpg.py:99 | a path with a name is its parent followed by that name, one part shorter; the root "/" is its own parent |
| PurePaths.LastDot | app.py:34 | the index of the last '.' in the name, or -1; the character there is a dot and no dot follows it |
| PurePaths.SuffixStart | heic_to_jpg.py:40 | a name has a suffix exactly when its last dot is neither the first nor the last character. The suffix then starts at that dot, and no dot follows it |
| PurePaths.Suffix | heic_to_jpg.py:40 | the suffix is empty, or a dot followed by at least one character that is not a dot |
| PurePaths.Stem | heic_to_jpg.py:40 | a non-empty name has a non-empty stem |
| PurePaths.StemSuffixSplit | heic_to_jpg.py:40 | stem followed by suffix gives the name back, and a non-empty name has a non-empty stem |
| PurePaths.StemOfAppendedSuffix | heic_to_jpg.py:40 | appending a suffix token (a dot, then dot-free text) to a non-empty stem gives a name with exactly that stem and that suffix |
| PurePaths.WithSuffix | heic_to_jpg.py:40 | `with_suffix` fails exactly when the name is empty; otherwise it keeps the parent and the number of parts |
| PurePaths.WithSuffixReplacesFinalSuffix | heic_to_jpg.py:40 | `with_suffix('.jpg')` keeps the stem, including any earlier dots, and makes the suffix `.jpg` |
| PurePaths.RelativeTo | heic_to_jpg.py:114 | `relative_to` succeeds exactly when the root is a prefix of the path with the same anchor; root plus the result is the path |
| PurePaths.Parts | heic_to_jpg.py:31 | the parts of a path string are non-empty, not ".", and contain no '/' |
| PurePaths.ParsePath | heic_to_jpg.py:31 | `Path(s)` has no empty or "." parts, only the root part holds a '/', and it starts at the root exactly when the string starts with '/' |
| PurePaths.ParsePlainName | app.py:109 | a plain file name with no '/' (and not "" or ".") is a one-part path named by itself |
| PurePaths.SegmentLengthJoin | heic_to_jpg.py:31 | joining with '/' does not change where the first piece ends |
| PurePaths.PartsJoin | heic_to_jpg.py:31 | the pieces of `a + "/" + b` are the pieces of `a` followed by the pieces of `b` |
| PurePaths.ParsePathJoin | heic_to_jpg.py:31 | `Path(a + "/" + b)` is `Path(a)` followed by the parts of the relative `b` |
| Pixels.Bands | heic_to_jpg.py:54 | an RGBA or LA image has at least one band, so its last band exists |
| Pixels.NormaliseForJpeg | heic_to_jpg.py:49-57 | the result is RGB with the same size. RGBA, LA and P images are pasted onto a white RGB canvas through their alpha band, with P converted to RGBA first. Other non-RGB modes are converted to RGB. An image is left unchanged exactly when it is already RGB |
| Quality.Sanitize | heic_to_jpg.py:159-161 | the quality is always in 1..100; an in-range value is kept, and exactly the out-of-range values become 95 |
| Quality.ParseInt | heic_to_jpg.py:158 | `int()` fails on the empty string, on a lone sign, on a bad first character and on any later non-digit. A run of digits gives its decimal value, leading zeros included. A sign followed by digits gives that value, negated for '-' ("+50" is 50, "-007" is -7). A negative result comes from a leading '-' |
| Quality.DecimalText | heic_to_jpg.py:158 | `str(n)` of a natural number is a non-empty run of digits |
| Quality.DecimalTextValue | heic_to_jpg.py:158 | the digits of a natural number's decimal text evaluate back to that number |
| Quality.ParseIntRoundTrip | heic_to_jpg.py:158 | `int(str(n)) == n` for every integer n, negative ones included |
| Cli.ConvertOutcomeSpec | heic_to_jpg.py:30-66 | a missing input fails with Missing before anything is read, and an input with an empty name fails with EmptyName. A decoding failure gives OpenFailed with the decoder's message. An encoding failure on a target that is not a directory gives SaveFailed with the encoder's message. When decoding and encoding both succeed and the target is not a directory, the conversion succeeds. A success has read an existing file and handed the encoder the normalised RGB image; the bytes are what the encoder returned, and the target is not a directory. The target is the given output path, or the input with the same parent and stem and the suffix `.jpg` |
| Cli.StoreFootprint | heic_to_jpg.py:60 | storing a conversion's result deletes no file and changes only the target of a successful conversion |
| Cli.DropMetadata | heic_to_jpg.py:99 | filtering never lengthens the listing |
| Cli.DropMetadataMembers | heic_to_jpg.py:99 | a path is kept exactly when it is in the listing and its name does not start with `._` |
| Cli.DropMetadataAppend | heic_to_jpg.py:94-99 | filtering the `.heic` glob results followed by the `.HEIC` glob results is the same as filtering each and concatenating, so the order of the listing is preserved |
| Cli.DropMetadataKeepsOthers | heic_to_jpg.py:99 | a listing without metadata files is kept whole |
| Cli.JobTargetBeside | heic_to_jpg.py:110-111 | without an output root, each JPEG goes in the same directory as its HEIC file, with the same stem and the suffix `.jpg` |
| Cli.JobTargetMirrored | heic_to_jpg.py:112-115 | with an output root, each JPEG lies under that root at the HEIC file's path relative to the input root, with the same stem and the suffix `.jpg` |
| Cli.ListingBelow | heic_to_jpg.py:93-99 | every file the glob calls return and the filter keeps lies strictly below the input root, so `relative_to` cannot fail |
| Cli.MakeDirsSpec | heic_to_jpg.py:90 | `mkdir(parents=True, exist_ok=True)` raises, naming the path, exactly when the path is not a directory and it or an ancestor is a file. Otherwise it keeps every directory, and the path is a directory afterwards. Each directory it adds is an ancestor of the path, or the path itself, and none of them is a file |
| Cli.RunBatch | heic_to_jpg.py:107-119 | after n conversions there is one recorded result per converted file |
| Cli.BatchStepFootprint | heic_to_jpg.py:118 | one pass deletes no file and writes at most its own target |
| Cli.RunBatchFootprint | heic_to_jpg.py:107-119 | the batch deletes no file, and every file it writes or overwrites is the target of one of the converted files |
| Cli.SuccessesBounded | heic_to_jpg.py:122 | the summary's count is at most the number of files, and equals it exactly when no conversion failed |
| Cli.DirectoryRunSpec | heic_to_jpg.py:79-122 | an invalid input directory changes nothing. Without an output root nothing raises and no directory is created. With one, the run raises exactly when the output root is not a directory and it or an ancestor is a file; the exception names the output root and nothing changes. Otherwise the output root is a directory afterwards. A run that finds no files writes nothing, and without an output root a valid directory gives a summary exactly when files are found. The summary counts at most one success per kept file. No file is deleted, and every file written is the JPEG target of a kept file |
| Cli.QualityText | heic_to_jpg.py:158 | the value of a quality flag has no '='. It starts right after the flag's '=' and ends at the next '=' or at the end of the argument |
| Common.FieldLength | heic_to_jpg.py:158 | the length of the leading run of characters other than the separator, which ends at a separator or at the end; used for `split('=')` and for the '/'-separated pieces of a path string |
| Cli.FinalQuality | heic_to_jpg.py:151-163 | the quality after reading the arguments is always in 1..100 |
| Cli.FinalQualityDefault | heic_to_jpg.py:151-163 | without a `--quality=` flag whose value is an integer, the quality is 95 |
| Cli.FinalQualityLastSetting | heic_to_jpg.py:155-163 | the last `--quality=` flag with an integer value (its text up to the next '=') decides the quality; out of range it gives 95; later invalid flags change nothing |
| Cli.FirstPositionalIsFirst | heic_to_jpg.py:164-167 | the output path is the first argument that is neither flag; there is none exactly when every argument is a flag |
| Cli.ParseArgs | heic_to_jpg.py:149-167 | the loop's quality is `FinalQuality` and always in 1..100; recursive is set exactly when `--recursive` is among the arguments; the output is `FirstPositional` |
| Cli.OutputPath | heic_to_jpg.py:166-167 | there is an output path exactly when some argument is neither flag |
| Cli.Disk.ConvertFile | heic_to_jpg.py:18-66 | returns True exactly when `ConvertOutcome` succeeds. Only on success is the JPEG written at the target; no other file changes and the directories stay as they were |
| Cli.Disk.MakeDirectories | heic_to_jpg.py:90 | `mkdir(parents=True, exist_ok=True)` changes no file. It raises and leaves the directories alone exactly when `MakeDirs` fails; otherwise the directories become `MakeDirs`'s |
| Cli.Disk.ConvertEach | heic_to_jpg.py:107-122 | converting the files in order to their targets leaves the disk as `RunBatch` describes and the directories unchanged; the success count is the number of True results, at most the number of files. Its loop steps are the lemmas `RunBatchNext` (one more pass) and `SuccessesAppend` (one more result) |
| Cli.Disk.ConvertDirectory | heic_to_jpg.py:69-122 | the outcome and the disk are those of `DirectoryRun`: the directory check, the output root's creation, the filter, and the conversion of each kept file in order |
| Cli.Disk.RunCli | heic_to_jpg.py:125-180 | without an input argument, or with an input that is neither a file nor a directory, the status is 1 and nothing changes. For a file input the status is 0 and the disk is left as converting that file leaves it, with the quality and output path read from the remaining arguments. For a directory input the disk is left as `DirectoryRun` leaves it, and the status is 1 exactly when creating the output root raised |
| WebApp.Lower | app.py:34 | lower-casing keeps the length and folds each character on its own |
| WebApp.AllowedFile | app.py:32-34 | an accepted name has its last dot five characters from the end |
| WebApp.LowerIsNeverUpper | app.py:29-34 | a lower-cased extension is never "HEIC" |
| WebApp.AllowedFileShape | app.py:32-34 | a name is accepted exactly when it ends in a dot followed by "heic" in any mix of cases |
| WebApp.AcceptsAnyCase | app.py:32-34 | any stem, a dot and "heic" in any cases is accepted |
| WebApp.RejectsOtherLastExtension | app.py:32-34 | only the text after the last dot counts: a name whose last extension is not "heic" is rejected, whatever comes before it |
| WebApp.RejectsNoDot | app.py:34 | a name without a dot is rejected |
| WebApp.ConvertBytes | app.py:37-68 | succeeds exactly when decoding and encoding both succeed, with the encoding of the normalised image. A decoding failure is reported as the `Dönüştürme hatası: ` prefix followed by the decoder's message, and an encoding failure as the prefix followed by the encoder's message |
| WebApp.FormQuality | app.py:93-95 | a missing field gives 95; an integer in range is kept and one out of range gives 95; a field that is not an integer fails exactly then |
| WebApp.DownloadName | app.py:109 | the download name is a bare file name, with no '/', ending in `.jpg` |
| WebApp.DownloadNameKeepsStem | app.py:109 | the download name of a plain file name is its stem plus `.jpg`; its own stem is that stem and its suffix `.jpg` |
| WebApp.DownloadNameOfHeicUpload | app.py:109 | uploading `photo` plus a suffix (such as `.HEIC`) offers `photo.jpg` |
| WebApp.Respond | app.py:77-122 | "Dosya seçilmedi" with 400 exactly when no file or an empty name is sent; "Sadece HEIC dosyaları desteklenir" with 400 exactly for a disallowed name; 400 exactly when one of these checks fails, otherwise any error is 500. A non-integer quality gives 500 with the `int()` error. An empty sanitised name makes the save path the upload folder itself; the clean-up's `unlink()` on that folder then raises inside the handler, and the answer is Flask's own 500 error (`Unhandled`), exactly in that case. A failed save under a non-empty name gives 500 with the save's message, and a failed conversion gives 500 with `ConvertBytes`'s message. An attachment is a JPEG of the converted upload named after the sanitised name, and one is given whenever saving and converting succeed |
| WebApp.UploadFolder.Convert | app.py:77-122 | the response is `Respond`'s. A request rejected before the save, or whose sanitised name is empty, leaves the folder unchanged. Once a save path under a non-empty name is chosen, the folder no longer holds that name afterwards, on success and on every failure alike. No file in the folder has an empty name, before or after |

## Left out

- The image library is injected as the `Codec` parameter. This covers HEIC decoding, mode conversion, pasting and JPEG encoding, including `optimize=True`.
- Failures of `convert` or `paste` in the image library are treated as failures of the encoder.
- Image size and pixel values are carried symbolically, not computed.
- The directory listing from `glob`/`rglob` is a parameter. The precondition of `Cli.Disk.ConvertDirectory` states what those calls guarantee about it.
- `Cli.Disk.ConvertDirectory`, `Cli.Disk.RunCli` and `Cli.RunBatch`: do not model the `mkdir` of each target's parent directory under an output root (heic_to_jpg.py:116). That call creates the directories of a mirrored tree. When a regular file stands where one of them is needed, it raises, which ends the batch and gives status 1. In the model that batch runs to the end, and the status is 0. The model only creates the output root itself (heic_to_jpg.py:90).
- Whether a target's parent directory exists is not modelled. A target whose parent directory is missing makes the source's save fail, and the model does not capture this.
- `Cli.Disk.ConvertDirectory` computes every output path before the loop rather than inside it. The computation is pure, so only the order of evaluation differs.
- `PurePaths.WithSuffix` accepts only a suffix token (a dot followed by dot-free text), which covers the `.jpg` the converter passes. The other arguments pathlib accepts or rejects are not modelled.
- `WebApp.InvalidLiteral` quotes the text with single quotes. It does not model Python's `repr`, which switches to double quotes and escapes characters for some inputs.
- `Cli.Disk.ConvertFile` does not model that the image library may leave a truncated file at the target when encoding fails part-way. The model leaves the disk unchanged on every failure.
- `str(Path)` followed by `Path(str)` inside `convert_directory` is taken to give the same path back.
- `PurePaths.ParsePath` does not model the POSIX special case of a leading "//".
- `PurePaths.SuffixStart` follows the suffix rules of Python up to 3.13, which treat a name ending in a dot as having no suffix.
- `Quality.ParseInt` (which models `int()`) accepts only an optional sign followed by ASCII digits. It does not model surrounding whitespace, underscores between digits or non-ASCII digits.
- `WebApp.Lower` folds only ASCII letters. The model stays exact for the extension check because no other character lower-cases to a letter of "heic".
- Printed messages are not modelled, and neither is the process exit beyond the status `Cli.Disk.RunCli` returns.
- The usage text is not modelled.
- The `/` and `/health` routes are not modelled.
- Flask request parsing, `send_file` and the upload size limit are not modelled.
- The body of the error page Flask sends for an exception that escapes the handler is not modelled. `WebApp.Unhandled` stands for that answer.
- `secure_filename` is an injected function. The case where it returns an empty name is modelled as the handler's unhandled exception. The model does not use the fact that, for a name `allowed_file` accepts, the function keeps the `heic` extension, so the result is never empty.
- Whether the upload is saved successfully is an injected outcome.
- A failing `unlink` after a successful conversion is not modelled.
- Concurrent requests sharing the upload folder are not modelled.
- The output folder the web app creates at start-up is never used, and is not modelled.
- `pythonanywhere_wsgi.py` is deployment glue and is not part of this model.
