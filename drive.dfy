/**
 The upload script: every file of the source directory whose name ends with
 the given extension is re-encoded into a temporary file, uploaded to Drive
 under its sequential name, and the temporary file is removed. The Drive
 service is an append-only log of the `files().create` requests it receives;
 temporary files are handles in a store that tracks which of them exist.
 */
module UploadToDrive {
  import opened Strings
  import opened Paths
  import opened Numbering

  datatype Option<T> = None | Some(value: T)

  /** Python truthiness of the optional `--folder_id` argument: given and not empty */
  predicate Truthy(folderId: Option<string>) {
    folderId.Some? && folderId.value != ""
  }

  /** The request body `{'name': ...}`, with `'parents'` when that key is set */
  datatype Metadata = Metadata(name: string, parents: Option<seq<string>>)

  /**
   The metadata `upload_to_drive` sends: always the name; the parent folder
   list `[folder_id]` exactly when a truthy folder id was given.
   */
  function MetadataFor(fileName: string, folderId: Option<string>): (m: Metadata)
    ensures m.name == fileName
    ensures m.parents.Some? <==> Truthy(folderId)
    ensures m.parents.Some? ==> m.parents.value == [folderId.value]
  {
    if Truthy(folderId) then Metadata(fileName, Some([folderId.value]))
    else Metadata(fileName, None)
  }

  const Jpeg := "image/jpeg"
  const Png := "image/png"
  const Gif := "image/gif"

  /**
   The MIME type an upload is declared with, chosen on the lower-cased name:
   ".png" first, then ".gif", and "image/jpeg" for everything else.
   */
  function MimeType(fileName: string): (mime: string)
    ensures mime == Jpeg || mime == Png || mime == Gif
  {
    var lower := Lower(fileName);
    if EndsWith(lower, ".png") then Png
    else if EndsWith(lower, ".gif") then Gif
    else Jpeg
  }

  /**
   The three outcomes: "image/png" exactly when the lower-cased name ends
   with ".png"; "image/gif" when it ends with ".gif" and not ".png";
   "image/jpeg" for every other name.
   */
  lemma MimeTypeChoice(fileName: string)
    ensures var lower := Lower(fileName);
      && (MimeType(fileName) == Png <==> EndsWith(lower, ".png"))
      && (MimeType(fileName) == Gif <==> EndsWith(lower, ".gif") && !EndsWith(lower, ".png"))
      && (MimeType(fileName) == Jpeg <==> !EndsWith(lower, ".png") && !EndsWith(lower, ".gif"))
  {
  }

  /** No name ends with both ".png" and ".gif", so the order of the two tests never matters. */
  lemma PngAndGifExclusive(s: string)
    ensures !(EndsWith(s, ".png") && EndsWith(s, ".gif"))
  {
  }

  /** The choice ignores case: a name and its lower-cased form get the same type. */
  lemma MimeTypeIgnoresCase(fileName: string)
    ensures MimeType(Lower(fileName)) == MimeType(fileName)
  {
    LowerIdempotent(fileName);
  }

  /** Lower- and upper-case ".png" names are declared "image/png". */
  lemma PngExamples()
    ensures MimeType("001.png") == Png && MimeType("002.PNG") == Png
  {
    LowerChars("001.png");
    LowerChars("002.PNG");
    assert Lower("001.png") == "001.png" && Lower("002.PNG") == "002.png";
  }

  /** Mixed-case ".gif" names are declared "image/gif". */
  lemma GifExamples()
    ensures MimeType("003.gif") == Gif && MimeType("004.Gif") == Gif
  {
    LowerChars("003.gif");
    LowerChars("004.Gif");
    assert Lower("003.gif") == "003.gif" && Lower("004.Gif") == "004.gif";
  }

  /** Any extension other than ".png" and ".gif" is sent as "image/jpeg". */
  lemma JpegExamples()
    ensures MimeType("005.jpg") == Jpeg && MimeType("006.bmp") == Jpeg
  {
    LowerOfLowerCase("005.jpg");
    LowerOfLowerCase("006.bmp");
    assert "005.jpg"[3..] == ".jpg" && "006.bmp"[3..] == ".bmp";
  }

  /** A name without an extension, or whose last extension is not an image type, is sent as JPEG too. */
  lemma FallbackExamples()
    ensures MimeType("007") == Jpeg && MimeType("008.png.txt") == Jpeg
  {
    LowerOfLowerCase("007");
    LowerOfLowerCase("008.png.txt");
    assert "008.png.txt"[7..] == ".txt";
  }

  /**
   The digits of a generated name never take part in the choice: the MIME
   type of `NewName(counter, path)` is that of the extension of `path` alone.
   */
  lemma MimeTypeOfNewName(counter: nat, path: string)
    ensures MimeType(NewName(counter, path)) == MimeType(Extension(path))
  {
    var digits, ext := Pad3(counter), Extension(path);
    assert NewName(counter, path) == digits + ext;
    LowerAppend(digits, ext);
    LowerOfDigits(digits);
    assert Lower(digits + ext) == digits + Lower(ext);
    EndsWithAfterDigits(digits, Lower(ext), ".png");
    EndsWithAfterDigits(digits, Lower(ext), ".gif");
  }

  /** One `files().create` request: its metadata and declared MIME type */
  datatype Upload = Upload(metadata: Metadata, mimeType: string)

  /** The request `upload_to_drive(service, name, path, folder_id)` makes */
  function UploadFor(fileName: string, folderId: Option<string>): Upload {
    Upload(MetadataFor(fileName, folderId), MimeType(fileName))
  }

  type TempId = nat

  /** Temporary files made with `tempfile.NamedTemporaryFile(delete=False)` that still exist */
  class TempStore {
    var live: set<TempId>
    var next: TempId

    ghost predicate Valid()
      reads this
    {
      forall t :: t in live ==> t < next
    }

    constructor ()
      ensures Valid() && live == {}
    {
      live := {};
      next := 0;
    }

    /** Creates a new temporary file and returns its handle. */
    method Create() returns (t: TempId)
      requires Valid()
      modifies this
      ensures Valid()
      ensures t !in old(live) && live == old(live) + {t}
    {
      t := next;
      live := live + {t};
      next := next + 1;
    }

    /** `os.remove(path)`, which needs the file to exist */
    method Remove(t: TempId)
      requires Valid() && t in live
      modifies this
      ensures Valid()
      ensures live == old(live) - {t}
    {
      live := live - {t};
    }
  }

  /** The Drive service: the log of the upload requests it has received */
  class DriveService {
    var uploads: seq<Upload>

    constructor ()
      ensures uploads == []
    {
      uploads := [];
    }
  }

  /**
   `process_image(input_path, counter)`: re-encodes the image into a new
   temporary file and returns that file with the name to upload it under.
   */
  method ProcessImage(temps: TempStore, inputPath: string, counter: nat)
    returns (tempFile: TempId, processedName: string)
    requires temps.Valid()
    modifies temps
    ensures temps.Valid()
    ensures tempFile !in old(temps.live) && temps.live == old(temps.live) + {tempFile}
    ensures processedName == NewName(counter, inputPath)
  {
    tempFile := temps.Create();
    processedName := NewName(counter, inputPath);
  }

  /**
   `upload_to_drive(service, file_name, file_path, folder_id)`: builds the
   metadata, picks the MIME type and sends one create request.
   */
  method UploadToDrive(service: DriveService, fileName: string, filePath: TempId, folderId: Option<string>)
    modifies service
    ensures service.uploads == old(service.uploads) + [UploadFor(fileName, folderId)]
  {
    var metadata := Metadata(fileName, None);
    if Truthy(folderId) {
      metadata := metadata.(parents := Some([folderId.value]));
    }
    var mimeType := Jpeg;
    if EndsWith(Lower(fileName), ".png") {
      mimeType := Png;
    } else if EndsWith(Lower(fileName), ".gif") {
      mimeType := Gif;
    }
    service.uploads := service.uploads + [Upload(metadata, mimeType)];
  }

  /**
   The requests a run sends for the matched base names `matched` of
   directory `source`, numbering from `offset`: the i-th request (from 0)
   uploads the i-th matched file under number `offset + i`.
   */
  function PlannedUploads(source: string, matched: seq<string>, offset: nat, folderId: Option<string>): (r: seq<Upload>)
    ensures |r| == |matched|
  {
    seq(|matched|, k requires 0 <= k < |matched| => UploadOfFile(source, matched[k], offset + k, folderId))
  }

  /** The request for the listed file `name` of `source` when the counter is `number` */
  function UploadOfFile(source: string, name: string, number: nat, folderId: Option<string>): Upload {
    UploadFor(NewName(number, Join(source, name)), folderId)
  }

  lemma PlannedUploadAt(source: string, matched: seq<string>, offset: nat, folderId: Option<string>, i: nat)
    requires i < |matched|
    ensures PlannedUploads(source, matched, offset, folderId)[i] == UploadOfFile(source, matched[i], offset + i, folderId)
  {
  }

  /** The i-th upload carries number `offset + i`, so the numbers strictly increase. */
  lemma UploadNumbers(source: string, matched: seq<string>, offset: nat, folderId: Option<string>)
    ensures forall i :: 0 <= i < |matched| ==>
      NumberOf(PlannedUploads(source, matched, offset, folderId)[i].metadata.name) == offset + i
  {
    forall i | 0 <= i < |matched|
      ensures NumberOf(PlannedUploads(source, matched, offset, folderId)[i].metadata.name) == offset + i
    {
      UploadNumberAt(source, matched, offset, folderId, i);
    }
  }

  lemma UploadNumberAt(source: string, matched: seq<string>, offset: nat, folderId: Option<string>, i: nat)
    requires i < |matched|
    ensures NumberOf(PlannedUploads(source, matched, offset, folderId)[i].metadata.name) == offset + i
  {
    var name := NewName(offset + i, Join(source, matched[i]));
    assert PlannedUploads(source, matched, offset, folderId)[i].metadata.name == name;
    NewNameParts(offset + i, Join(source, matched[i]));
  }

  /** No two uploads of one run have the same name. */
  lemma UploadNamesDistinct(source: string, matched: seq<string>, offset: nat, folderId: Option<string>)
    ensures var r := PlannedUploads(source, matched, offset, folderId);
      forall i, j :: 0 <= i < j < |r| ==> r[i].metadata.name != r[j].metadata.name
  {
    UploadNumbers(source, matched, offset, folderId);
  }

  /** Every upload of a run goes to the same parents: `[folder_id]` when it is truthy, none otherwise. */
  lemma UploadParents(source: string, matched: seq<string>, offset: nat, folderId: Option<string>)
    ensures var r := PlannedUploads(source, matched, offset, folderId);
      forall i :: 0 <= i < |r| ==>
        r[i].metadata.parents == if Truthy(folderId) then Some([folderId.value]) else None
  {
    forall i | 0 <= i < |matched| {
      PlannedUploadAt(source, matched, offset, folderId, i);
    }
  }

  lemma UploadMimeTypeAt(source: string, matched: seq<string>, offset: nat, folderId: Option<string>, i: nat)
    requires i < |matched|
    requires forall k :: 0 <= k < |matched[i]| ==> matched[i][k] != '/'
    ensures PlannedUploads(source, matched, offset, folderId)[i].mimeType == MimeType(Extension(matched[i]))
  {
    PlannedUploadAt(source, matched, offset, folderId, i);
    MimeTypeOfNewName(offset + i, Join(source, matched[i]));
    ExtensionOfJoin(source, matched[i]);
  }

  /** Each upload's MIME type is decided by the extension of the listed file it came from. */
  lemma UploadMimeTypes(source: string, matched: seq<string>, offset: nat, folderId: Option<string>)
    requires forall i, k :: 0 <= i < |matched| && 0 <= k < |matched[i]| ==> matched[i][k] != '/'
    ensures var r := PlannedUploads(source, matched, offset, folderId);
      forall i :: 0 <= i < |r| ==> r[i].mimeType == MimeType(Extension(matched[i]))
  {
    forall i | 0 <= i < |matched| {
      UploadMimeTypeAt(source, matched, offset, folderId, i);
    }
  }

  /**
   The extension argument is used as typed, with no "." added: "jpg"
   selects "xjpg" as well as "a.jpg".
   */
  lemma RawExtensionSelection()
    ensures SelectBySuffix(["xjpg", "a.jpg", "b.png"], "jpg") == ["xjpg", "a.jpg"]
  {
    assert !EndsWith("b.png", "jpg") by { assert "b.png"[2..] == "png"; }
    assert SelectBySuffix(["b.png"], "jpg") == [] by { assert ["b.png"][1..] == []; }
    assert EndsWith("a.jpg", "jpg") by { assert "a.jpg"[2..] == "jpg"; }
    assert SelectBySuffix(["a.jpg", "b.png"], "jpg") == ["a.jpg"] by {
      assert ["a.jpg", "b.png"][1..] == ["b.png"];
    }
    assert EndsWith("xjpg", "jpg") by { assert "xjpg"[1..] == "jpg"; }
    assert ["xjpg", "a.jpg", "b.png"][1..] == ["a.jpg", "b.png"];
  }

  /** Given as ".jpg", the same extension selects only "a.jpg". */
  lemma DottedExtensionSelection()
    ensures SelectBySuffix(["xjpg", "a.jpg", "b.png"], ".jpg") == ["a.jpg"]
  {
    assert !EndsWith("b.png", ".jpg") by { assert "b.png"[1..] == ".png"; }
    assert SelectBySuffix(["b.png"], ".jpg") == [] by { assert ["b.png"][1..] == []; }
    assert EndsWith("a.jpg", ".jpg") by { assert "a.jpg"[1..] == ".jpg"; }
    assert SelectBySuffix(["a.jpg", "b.png"], ".jpg") == ["a.jpg"] by {
      assert ["a.jpg", "b.png"][1..] == ["b.png"];
    }
    assert !EndsWith("xjpg", ".jpg") by { assert "xjpg"[0..] == "xjpg"; }
    assert ["xjpg", "a.jpg", "b.png"][1..] == ["a.jpg", "b.png"];
  }

  /**
   The body of the main loop for one matched file: process it, upload the
   result and remove the temporary file.
   */
  method UploadImage(service: DriveService, temps: TempStore, imageFile: string, counter: nat, folderId: Option<string>)
    requires temps.Valid()
    modifies service, temps
    ensures temps.Valid() && temps.live == old(temps.live)
    ensures service.uploads == old(service.uploads) + [UploadFor(NewName(counter, imageFile), folderId)]
  {
    var tempFilePath, processedName := ProcessImage(temps, imageFile, counter);
    UploadToDrive(service, processedName, tempFilePath, folderId);
    temps.Remove(tempFilePath);
  }

  /** Appending the next planned request to a log that holds a prefix of the plan extends the prefix. */
  lemma LogStep<T>(log: seq<T>, before: seq<T>, start: seq<T>, plan: seq<T>, i: nat, next: T)
    requires i < |plan| && next == plan[i]
    requires before == start + plan[..i]
    requires log == before + [next]
    ensures log == start + plan[..i + 1]
  {
    assert plan[..i + 1] == plan[..i] + [plan[i]];
  }

  /**
   The script after the service is built: `listing` holds the base names of
   the source directory in the order `glob` enumerates them, and each one
   that ends with the extension, as given, is uploaded.
   */
  method Run(service: DriveService, temps: TempStore, source: string, listing: seq<string>,
             extension: string, folderId: Option<string>, offset: nat)
    returns (counter: nat)
    requires temps.Valid()
    modifies service, temps
    ensures temps.Valid() && temps.live == old(temps.live)
    ensures counter == offset + |SelectBySuffix(listing, extension)|
    ensures service.uploads
         == old(service.uploads) + PlannedUploads(source, SelectBySuffix(listing, extension), offset, folderId)
  {
    var matched := SelectBySuffix(listing, extension);
    counter := UploadMatched(service, temps, source, matched, folderId, offset);
  }

  /**
   The main loop: from `counter = offset`, each matched file is processed,
   uploaded and its temporary file removed, and the counter goes up by one.
   */
  method UploadMatched(service: DriveService, temps: TempStore, source: string, matched: seq<string>,
                       folderId: Option<string>, offset: nat)
    returns (counter: nat)
    requires temps.Valid()
    modifies service, temps
    ensures temps.Valid() && temps.live == old(temps.live)
    ensures counter == offset + |matched|
    ensures service.uploads == old(service.uploads) + PlannedUploads(source, matched, offset, folderId)
  {
    ghost var planned := PlannedUploads(source, matched, offset, folderId);
    counter := offset;
    var i := 0;
    while i < |matched|
      invariant 0 <= i <= |matched| && counter == offset + i
      invariant temps.Valid() && temps.live == old(temps.live)
      invariant service.uploads == old(service.uploads) + planned[..i]
    {
      ghost var before := service.uploads;
      ghost var next := UploadFor(NewName(counter, Join(source, matched[i])), folderId);
      assert next == planned[i];
      UploadImage(service, temps, Join(source, matched[i]), counter, folderId);
      LogStep(service.uploads, before, old(service.uploads), planned, i, next);
      counter := counter + 1;
      i := i + 1;
    }
    assert planned[..|matched|] == planned;
  }
}
