# uploadTools, modelled in Dafny

uploadTools is a pair of Python scripts that move the image files of a directory
somewhere else under sequential names.

- `uploadToLocal.py` handles the extension argument first. If it does not start with
  ".", it gets one.
  - It creates the destination directory if nothing exists under that name.
  - It then copies every file of the source directory whose name ends with the
    extension into the destination. The new name of each copy is its number, counted
    from 1 and zero-padded to three digits, followed by the original extension.
- `uploadToDrive.py` does the same for an upload to Google Drive, with four
  differences:
  - Numbering starts at `--offset`.
  - The extension argument is used as given.
  - Every file is first re-encoded into a temporary file, which is removed after the
    upload.
  - Each upload request carries the new name, and the parents `[folder_id]` when a
    folder id is given, which must be a non-empty string. Its MIME type is chosen
    from the lower-cased name: "image/png", then "image/gif", else "image/jpeg".

The model has five modules.

| module | file | content |
|---|---|---|
| `Strings` | `strings.dfy` | The `str` operations the scripts use: `startswith`, `endswith` and `lower`. It also has `rfind`, which the scripts do not call but `os.path.splitext` uses internally. |
| `Paths` | `paths.dfy` | POSIX `os.path.join` and `os.path.splitext`, and the selection that `glob.glob(os.path.join(dir, '*' + ext))` makes from a directory listing. |
| `Numbering` | `numbering.dfy` | `f"{counter:03d}"` and the new name `f"{counter:03d}{os.path.splitext(path)[1]}"`, with the number it reads back as. |
| `UploadToDrive` | `drive.dfy` | See below. |
| `UploadToLocal` | `local.dfy` | See below. |

- `UploadToDrive` models the upload script.
  - The Drive service is a class whose field is the log of upload requests it has
    received.
  - The temporary files are a class that records which handles exist.
  - `upload_to_drive`, `process_image` and the loop are methods.
  - Each method is specified by the pure functions `MetadataFor`, `MimeType` and
    `PlannedUploads`.
- `UploadToLocal` models the copy script.
  - The file system is a class with the set of directories and a map from file paths
    to contents.
  - The copy loop is a method. Its result is stated through `ApplyCopies`, which folds
    the planned copies over the initial files.
  - Two failures are kept. `os.makedirs("")` raises `FileNotFoundError` before
    any copy is made. The loop stops at `shutil.copy`'s `SameFileError`.

The directory listing `glob` enumerates is a parameter: the base names of the source
directory, in enumeration order.

## Model

| member | source | states |
|---|---|---|
| Strings.Lower | uploadToDrive.py:31 | `file_name.lower()` keeps the length; with `Strings.LowerChars` it lower-cases each character on its own |
| Strings.LowerChars | uploadToDrive.py:31 | the i-th character of the lower-cased name is the lower-cased i-th character |
| Strings.LowerIdempotent | uploadToDrive.py:31-33 | lower-casing an already lower-cased name changes nothing |
| Strings.LowerAppend | uploadToDrive.py:31-33 | lower-casing distributes over concatenation |
| Strings.LastIndex | uploadToDrive.py:21 | the `rfind` that `splitext` uses: -1 or an index holding the character, with no occurrence after it |
| Paths.JoinInjective | uploadToLocal.py:34 | one directory joined with two different relative names gives two different paths |
| Paths.SplitExtParts | uploadToDrive.py:21 | `splitext` only cuts: root + extension == path; the extension is empty, or a "." followed by no "." and no "/" |
| Paths.ExtensionOfJoin | uploadToLocal.py:31-33 | the extension of the path `glob` returns is that of the listed base name alone |
| Paths.ExtensionOfSingleDotName | uploadToLocal.py:33 | a name not starting with "." that ends with a single-dot extension such as ".jpg" has exactly that extension |
| Paths.SelectBySuffix | uploadToLocal.py:31 | a name is selected if and only if it is listed and ends with the suffix; no more names than listed |
| Paths.SelectAppend | uploadToDrive.py:89 | selection keeps listing order: selecting from `a + b` is selecting from `a`, then from `b` |
| Paths.SelectDistinct | uploadToDrive.py:89 | a listing without repeated names selects each name at most once |
| Numbering.Decimal | uploadToDrive.py:21 | `str(n)`: at least one digit, and no leading zero unless n is 0 |
| Numbering.ParseDecimalOfDecimal | uploadToDrive.py:21 | the decimal digits of n read back as n |
| Numbering.Pad3 | uploadToDrive.py:21 | `f"{n:03d}"` is all digits and reads back as n; exactly 3 characters below 1000; from 1000 on, the plain decimal with no padding |
| Numbering.Pad3Examples | uploadToDrive.py:21 | 1 → "001", 42 → "042", 999 → "999", 1000 → "1000" |
| Numbering.DecimalLength | uploadToDrive.py:21 | n < 1000 exactly when `str(n)` has at most 3 digits |
| Numbering.NewNameParts | uploadToDrive.py:21 | a new name reads back as its counter, starts with three digits and ends with the path's `splitext` extension |
| Numbering.NewNameInjective | uploadToLocal.py:33 | two new names are equal only when counters are equal, and extensions too |
| Numbering.NewNameIsRelative | uploadToLocal.py:33-34 | a new name never starts with "/", so `os.path.join` keeps it under the destination |
| UploadToDrive.MetadataFor | uploadToDrive.py:25-27 | the metadata always holds the name, and holds `parents == [folder_id]` exactly when the folder id is truthy |
| UploadToDrive.MimeType | uploadToDrive.py:29-34 | the type is one of "image/jpeg", "image/png", "image/gif" |
| UploadToDrive.MimeTypeChoice | uploadToDrive.py:30-34 | png if and only if the lower-cased name ends with ".png"; gif iff ".gif" and not ".png"; jpeg iff neither |
| UploadToDrive.PngAndGifExclusive | uploadToDrive.py:31-34 | no name ends with both ".png" and ".gif", so the order of the two tests never matters |
| UploadToDrive.MimeTypeIgnoresCase | uploadToDrive.py:31-33 | a name and its lower-cased form get the same type |
| UploadToDrive.PngExamples | uploadToDrive.py:31-32 | "001.png" and "002.PNG" are "image/png" |
| UploadToDrive.GifExamples | uploadToDrive.py:33-34 | "003.gif" and "004.Gif" are "image/gif" |
| UploadToDrive.JpegExamples | uploadToDrive.py:30 | ".jpg" and ".bmp" names fall back to "image/jpeg" |
| UploadToDrive.FallbackExamples | uploadToDrive.py:30-34 | a name with no extension, and "008.png.txt", fall back to "image/jpeg" |
| UploadToDrive.MimeTypeOfNewName | uploadToDrive.py:21-34 | the type of an uploaded name depends only on the original path's extension, never on the digits |
| UploadToDrive.TempStore.Create | uploadToDrive.py:19 | a new temporary file has a handle not in use, and it is added to the existing files |
| UploadToDrive.TempStore.Remove | uploadToDrive.py:92 | `os.remove` needs the temporary file to exist and removes just that one |
| UploadToDrive.ProcessImage | uploadToDrive.py:16-21 | one new temporary file, and the returned name is `NewName(counter, input_path)` |
| UploadToDrive.UploadToDrive | uploadToDrive.py:24-38 | exactly one request is appended to the service log: `MetadataFor` of the name with the folder id, and `MimeType` of the name |
| UploadToDrive.UploadImage | uploadToDrive.py:90-92 | one loop pass appends the request for the file's new name; the temporary files afterwards are those before |
| UploadToDrive.UploadMatched | uploadToDrive.py:88-93 | the loop appends exactly `PlannedUploads` to the log: one request per matched file, in order, the i-th under number offset + i; the counter ends at offset + number matched; no temporary file is left behind |
| UploadToDrive.Run | uploadToDrive.py:88-93 | the same for the files that `glob` selects with the raw extension argument |
| UploadToDrive.PlannedUploads | uploadToDrive.py:89-91 | one request per matched file |
| UploadToDrive.UploadNumbers | uploadToDrive.py:88-93 | the i-th request's name reads back as offset + i |
| UploadToDrive.UploadNamesDistinct | uploadToDrive.py:88-93 | no two requests of one run carry the same name |
| UploadToDrive.UploadParents | uploadToDrive.py:26-27 | every request of a run gets the parents `[folder_id]` when it is truthy, and none otherwise |
| UploadToDrive.UploadMimeTypes | uploadToDrive.py:29-34 | each request's type is `MimeType` of the listed file's extension |
| UploadToDrive.RawExtensionSelection | uploadToDrive.py:89 | the extension is not normalised: "jpg" selects "xjpg" as well as "a.jpg" |
| UploadToDrive.DottedExtensionSelection | uploadToDrive.py:89 | ".jpg" selects only "a.jpg" from the same listing |
| UploadToLocal.NormalisedExtension | uploadToLocal.py:22-23 | the result starts with "."; it is unchanged exactly when the argument already started with "."; otherwise it is "." + the argument |
| UploadToLocal.NormalisationIdempotent | uploadToLocal.py:22-23 | normalising twice is normalising once |
| UploadToLocal.PlannedCopies | uploadToLocal.py:30-39 | one copy per matched file |
| UploadToLocal.Targets | uploadToLocal.py:34 | one destination path per copy |
| UploadToLocal.ApplyCopies | uploadToLocal.py:36 | the copies, one after another, only add paths; every destination path then holds a file |
| UploadToLocal.CopiesLand | uploadToLocal.py:34-36 | with distinct targets, none of them a source: each target holds its source's content, and every other file keeps its own |
| UploadToLocal.PlannedCopiesLand | uploadToLocal.py:30-39 | the same for a run's copies, whose targets are distinct |
| UploadToLocal.CompletedCopies | uploadToLocal.py:30-39 | a run that got through all copies made every one of them, and none onto its own source |
| UploadToLocal.PlannedNumbers | uploadToLocal.py:30-39 | numbering starts at 1: the k-th copy's name reads back as k + 1 |
| UploadToLocal.CopyTargetsDiffer | uploadToLocal.py:33-34 | copies under different numbers write to different paths |
| UploadToLocal.PlannedTargetsDistinct | uploadToLocal.py:30-39 | no two copies of one run write to the same path, so a run never overwrites its own output |
| UploadToLocal.SingleDotExtensionKept | uploadToLocal.py:33 | with a single-dot extension and plain listed names, the k-th copy is named `Pad3(k + 1)` + that extension |
| UploadToLocal.MultiDotExtensionExample | uploadToLocal.py:33 | `splitext` keeps only the last extension: "src/a.tar.gz" has ".gz" |
| UploadToLocal.PlanCopiesMatches | uploadToLocal.py:31 | a listed file is copied if and only if its name ends with the normalised extension |
| UploadToLocal.JpgSelection | uploadToLocal.py:22-31 | "jpg" becomes ".jpg" and selects "a.jpg", "b.jpg", in order, from "a.jpg", "b.jpg", "c.png" |
| UploadToLocal.CopyTargetInside | uploadToLocal.py:33-34 | a copy's destination path is longer than the destination directory, so it is never that directory |
| UploadToLocal.FileSystem.MakeDirs | uploadToLocal.py:26-27 | `os.makedirs` needs nothing to exist under the name; it fails on the empty path and changes nothing, and otherwise adds exactly that directory |
| UploadToLocal.FileSystem.Exists | uploadToLocal.py:26 | (definition) `os.path.exists`: a directory or a file is there under that name, and the empty path never exists |
| UploadToLocal.FileSystem.CopyFile | uploadToLocal.py:36 | `shutil.copy` fails exactly when the target is the source, and then changes nothing; otherwise it sets the target to the source's content and leaves every other file unchanged |
| UploadToLocal.CopyImage | uploadToLocal.py:33-36 | one loop pass: the copy is `CopyOf` the file under its counter; it fails exactly on a copy onto itself |
| UploadToLocal.CopyMatched | uploadToLocal.py:30-39 | after the loop, the files are `ApplyCopies` of the first counter - 1 planned copies, none onto itself; the run is complete exactly when counter = 1 + number matched; otherwise it stops at the copy whose source is its target |
| UploadToLocal.Run | uploadToLocal.py:22-39 | an empty destination ends the run with `FileNotFoundError` and nothing changed, and no other destination does; otherwise the destination directory exists afterwards and no other directory was added, and the files are those of `CopyMatched` for the copies `Plan` makes with the normalised extension |
| Strings.StartsWith | uploadToLocal.py:22 | (definition) `s.startswith(prefix)`: the prefix is the first characters of `s` |
| Strings.EndsWith | uploadToDrive.py:31-33 | (definition) `s.endswith(suffix)`: the suffix is the last characters of `s` |
| Paths.Join | uploadToLocal.py:31-34 | (definition) POSIX `os.path.join(a, b)`: `b` when it starts with "/"; `a + b` when `a` is empty or ends with "/"; else `a + "/" + b`; used for the glob pattern and the destination path here and at uploadToDrive.py:89 |
| Paths.SplitExt | uploadToDrive.py:21 | (definition) POSIX `os.path.splitext`: cut at the last "." after the last "/", unless only dots come before it in that component, as in ".bashrc"; otherwise no extension; `Paths.SplitExtParts` states what it promises |
| Paths.Extension | uploadToLocal.py:33 | (definition) `os.path.splitext(p)[1]`, the second part of `Paths.SplitExt` |
| Numbering.NewName | uploadToDrive.py:21 | (definition) `f"{counter:03d}{os.path.splitext(path)[1]}"`, the same expression as uploadToLocal.py:33; `Numbering.NewNameParts` and `Numbering.NewNameInjective` state what it promises |
| UploadToDrive.Truthy | uploadToDrive.py:26 | (definition) `if folder_id:`: the folder id was given and is not the empty string |
| UploadToDrive.UploadFor | uploadToDrive.py:24-34 | (definition) the request `upload_to_drive` sends for a name: `MetadataFor` and `MimeType` of that name |
| UploadToDrive.UploadOfFile | uploadToDrive.py:90-91 | (definition) the request for a listed file: `UploadFor` of `NewName(number, os.path.join(source, name))` |
| UploadToLocal.CopyOf | uploadToLocal.py:33-34 | (definition) the copy of a listed file: source `os.path.join(source_dir, name)`, new name `NewName(number, source)`, target `os.path.join(destination_dir, new name)` |
| UploadToLocal.Plan | uploadToLocal.py:22-31 | (definition) the copies a run makes: `PlannedCopies` of the listed names that end with the normalised extension |

## Left out

- OAuth setup (uploadToDrive.py:52-83) is not modelled: `token.json`, refresh and the interactive authorisation flow are foreign libraries and file I/O.
- Drive I/O (uploadToDrive.py:37-39, 85) is reduced to the log: `build`, `MediaFileUpload`, `execute` and the printed file id are network I/O. Each request is recorded by its metadata and MIME type only, without the media body.
- Image re-encoding (uploadToDrive.py:17-20) is not modelled. Only the temporary file's lifetime is kept, as a handle in `TempStore`, because PIL decoding and saving are foreign calls. The `suffix=` of the temporary file is not modelled either.
- `glob` itself is not modelled: the listing is a parameter.
  - Its enumeration order, its skipping of names that start with ".", pattern characters inside the extension, and platform case rules are not modelled.
  - Neither is the collapsing of repeated trailing "/" in the source directory.
  - For a source directory that does not exist, `glob` returns `[]`: the listing is empty, no file is transferred and the run completes.
  - An extension holding "/" makes the pattern reach into subdirectories of the source. The model matches the suffix against the listed base names only.
- Byte-level copying and metadata are not modelled: file contents are opaque `seq<bv8>` values.
- UploadToLocal.FileSystem.MakeDirs: makes only the named directory, without its missing parents.
- UploadToLocal.FileSystem.CopyFile: detects `SameFileError` by string equality of the two paths, without symbolic links, "..", or different spellings of one file. A target that is an existing directory, which `shutil.copy` copies into, is excluded by the precondition.
- UploadToLocal.Run: excludes a destination that is an existing file by its precondition. So it also excludes the `NotADirectoryError` that follows.
- UploadToLocal.Run: the file system compares paths as strings, without normalising them, so "dst/" and "dst" are different paths to it. This has two consequences (`UploadToLocal.FileSystem.Exists` and `UploadToLocal.FileSystem.MakeDirs` are affected in the same way):
  - If "dst" is an existing file and the destination is "dst/", Python's `os.path.exists` is false and `os.makedirs` raises `FileExistsError` before any copy. The model instead creates "dst/" and runs the copies.
  - If "dst" is an existing directory and the destination is "dst/", Python creates nothing. The model adds "dst/" as a second directory.
- UploadToLocal.FileSystem.Exists: the model does not require that the parent directory of every file is in the set of directories. It therefore admits states that no real file system has, such as a file "a/x" with no directory "a".
- UploadToLocal.Run: requires every planned source to be a file and every target not to be a directory. `FileNotFoundError` for a source removed during the run, and `IsADirectoryError`, are not modelled.
- UploadToDrive.Run: takes `offset` as a natural number. Python renders a negative counter such as -1 as "-01", which the model does not cover.
- Strings.Lower: lower-cases only the ASCII letters A-Z. Python's Unicode case mapping of other letters is not modelled.
- Per-file errors on the upload side are not modelled: decode failures, save failures and failed requests are foreign, and they would end the run.
  - `img.save(temp_file.name)` picks the image format from the temporary file's suffix, which is the `splitext` extension. A selected name with no extension, such as "xjpg", makes `save` fail before anything is uploaded.
  - So the MIME example "007" describes `upload_to_drive` on its own. The "xjpg" that `UploadToDrive.RawExtensionSelection` selects describes the selection on its own. Neither is a completed upload.
- argparse, usage comments and `print` output are not modelled.
