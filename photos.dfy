/** The photo resolver: `load_photos` lists a storage folder and keeps the
    image files; `load_hero_image` picks the first photo of the hero folder. */
module Photos {
  import opened Wrappers
  import opened Text
  import opened Sequences

  /** A file as the storage provider's listing reports it. */
  datatype DriveFile = DriveFile(id: string, name: string)

  /** One entry of `load_photos`' result. */
  datatype Photo = Photo(id: string, url: string)

  /** The storage provider's `files().list` for a folder id, with the files in
      the order it returns them (by name, trash excluded); None when the call
      raises. */
  type Drive = string -> Option<seq<DriveFile>>

  const URL_PREFIX: string := "https://lh3.googleusercontent.com/d/"
  const URL_SUFFIX: string := "=w1200"
  const HERO_FOLDER_ID: string := "1gaPqjlItG0YZcKt78CBKIhOXenjrRSW6"

  /** The file name, lower-cased, ends in `.jpg`, `.jpeg` or `.png`. */
  predicate IsImage(f: DriveFile) {
    var name := Lower(f.name);
    EndsWith(name, ".jpg") || EndsWith(name, ".jpeg") || EndsWith(name, ".png")
  }

  /** The public display URL of a file id. */
  function PhotoUrl(id: string): string {
    URL_PREFIX + id + URL_SUFFIX
  }

  function ToPhoto(f: DriveFile): Photo {
    Photo(f.id, PhotoUrl(f.id))
  }

  /** What `load_photos(folder_id)` returns: nothing, without asking the
      provider, for a missing or empty folder id; the provider's failure when
      the listing raises; otherwise the image files, in listing order. */
  function FolderPhotos(folder: Option<string>, drive: Drive): Result<seq<Photo>> {
    if folder.None? || folder.value == "" then Success([])
    else match drive(folder.value)
      case None => Failure(UpstreamFailure)
      case Some(files) => Success(Select(files, IsImage, ToPhoto))
  }

  /** The kept files are exactly the image files, in listing order, and each
      photo's URL is built from its file's id. */
  lemma {:induction false} FolderPhotosSpec(folder: string, drive: Drive)
    requires folder != "" && drive(folder).Some?
    ensures var files, r := drive(folder).value, FolderPhotos(Some(folder), drive);
            var idx := Kept(files, IsImage);
            r.Success? && |r.value| == |idx|
            && (forall i :: 0 <= i < |files| ==> (IsImage(files[i]) <==> i in idx))
            && (forall k, l :: 0 <= k < l < |idx| ==> idx[k] < idx[l])
            && (forall k :: 0 <= k < |idx| ==>
                  r.value[k].id == files[idx[k]].id && r.value[k].url == PhotoUrl(files[idx[k]].id))
  {
    var files := drive(folder).value;
    SelectAt(files, IsImage, ToPhoto);
  }

  /** Lower-casing `stem + ext` ends in `low` when `ext` lower-cases to it. */
  lemma LowerEndsWith(stem: string, ext: string, low: string)
    requires |ext| == |low| && forall k :: 0 <= k < |ext| ==> LowerChar(ext[k]) == low[k]
    ensures EndsWith(Lower(stem + ext), low)
  {
    var name := stem + ext;
    var lowered := Lower(name);
    var tail := lowered[|stem|..];
    assert |tail| == |low|;
    forall k | 0 <= k < |low| ensures tail[k] == low[k] {
      assert tail[k] == lowered[|stem| + k];
      assert name[|stem| + k] == ext[k];
    }
    assert tail == low;
  }

  /** Upper- and mixed-case extensions are accepted, whatever the stem. */
  lemma ExtensionCaseIgnored(stem: string)
    ensures IsImage(DriveFile("", stem + ".JPG"))
    ensures IsImage(DriveFile("", stem + ".Jpeg"))
    ensures IsImage(DriveFile("", stem + ".PNG"))
  {
    assert LowerChar('J') == 'j' && LowerChar('P') == 'p' && LowerChar('G') == 'g'
      && LowerChar('N') == 'n' && LowerChar('.') == '.' && LowerChar('e') == 'e'
      && LowerChar('p') == 'p' && LowerChar('g') == 'g';
    LowerEndsWith(stem, ".JPG", ".jpg");
    LowerEndsWith(stem, ".Jpeg", ".jpeg");
    LowerEndsWith(stem, ".PNG", ".png");
  }

  /** `load_photos`: the loop over the listing that keeps the image files. */
  method LoadPhotos(folder: Option<string>, drive: Drive) returns (r: Result<seq<Photo>>)
    ensures r == FolderPhotos(folder, drive)
    ensures folder.None? || folder == Some("") ==> r == Success([])
    ensures r.Failure? <==> folder.Some? && folder.value != "" && drive(folder.value).None?
    ensures r.Success? ==> forall p :: p in r.value ==> p.url == PhotoUrl(p.id)
  {
    if folder.None? || folder.value == "" {
      return Success([]);
    }
    var res := drive(folder.value);
    if res.None? {
      return Failure(UpstreamFailure);
    }
    var files := res.value;
    var photos: seq<Photo> := [];
    for i := 0 to |files|
      invariant photos == Select(files[..i], IsImage, ToPhoto)
    {
      var f := files[i];
      assert files[..i + 1][..i] == files[..i];
      if IsImage(f) {
        photos := photos + [Photo(f.id, URL_PREFIX + f.id + URL_SUFFIX)];
      }
    }
    assert files[..|files|] == files;
    SelectAll(files, IsImage, ToPhoto, (p: Photo) => p.url == PhotoUrl(p.id));
    r := Success(photos);
  }

  /** `load_hero_image`: the URL of the first image file of the hero folder
      in listing order, or None when the folder holds no image or when
      listing it fails (the failure is swallowed, never raised). */
  method LoadHeroImage(drive: Drive) returns (hero: Option<string>)
    ensures var ps := FolderPhotos(Some(HERO_FOLDER_ID), drive);
            hero == if ps.Success? && ps.value != [] then Some(ps.value[0].url) else None
    ensures drive(HERO_FOLDER_ID).None? ==> hero.None?
    ensures drive(HERO_FOLDER_ID).Some? ==>
              var files := drive(HERO_FOLDER_ID).value;
              (hero.None? <==> forall i :: 0 <= i < |files| ==> !IsImage(files[i]))
              && (hero.Some? ==> exists i :: 0 <= i < |files| && IsImage(files[i])
                                   && hero.value == PhotoUrl(files[i].id)
                                   && forall j :: 0 <= j < i ==> !IsImage(files[j]))
  {
    var photos := LoadPhotos(Some(HERO_FOLDER_ID), drive);
    if photos.Failure? {
      return None;
    }
    FolderPhotosSpec(HERO_FOLDER_ID, drive);
    var files := drive(HERO_FOLDER_ID).value;
    var idx := Kept(files, IsImage);
    if photos.value == [] {
      return None;
    }
    hero := Some(photos.value[0].url);
    assert forall j :: 0 <= j < idx[0] ==> !IsImage(files[j]);
  }
}

