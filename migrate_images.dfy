/**
 * The one-off migration of post images: every `.jpg`, `.jpeg` or `.png` file
 * directly inside a legacy post directory is copied to
 * `src/images/yyyy/MM/hero-images/` or `.../content-images/`, by whether the
 * post's `hero_image` mentions its name. Every post is scanned before any
 * file is copied. Directory contents, parsed `index.md` files and failing
 * copies are parameters.
 */
module MigrateImages {
  import opened Wrappers
  import opened JsValues
  import opened Text
  import opened Paths
  import opened Dates
  import MigrateContent

  const NEW_IMAGES_DIR: string := "src/images"
  const IMAGE_EXTENSIONS: seq<string> := [".jpg", ".jpeg", ".png"]
  const HERO_FOLDER: string := "hero-images"
  const CONTENT_FOLDER: string := "content-images"

  datatype ImageInfo = ImageInfo(sourcePath: string, targetPath: string, isHero: bool)

  datatype ImageError =
    | ListingUnreadable(path: string)  // readdir of the post directory fails
    | Unreadable(path: string)         // its index.md cannot be read or parsed
    | InvalidTimeValue                 // date-fns `format` of an invalid date
    | HeroNotSearchable                // `hero_image.includes` is not a function

  /** The console summary: total, hero and content image counts. */
  datatype Summary = Summary(total: nat, hero: nat, content: nat)

  /** `['.jpg', '.jpeg', '.png'].includes(extname(file).toLowerCase())`. */
  predicate IsImage(file: string)
  {
    ToLower(ExtName(file)) in IMAGE_EXTENSIONS
  }

  /**
   * `data.hero_image?.includes(file)`: a substring test on a string, an
   * element test on an array, false when absent or null, and None (a
   * TypeError) for any other value.
   */
  function HeroIncludes(hero: Value, file: string): (r: Option<bool>)
    ensures r.None? <==> !Searchable(hero)
  {
    match hero
    case Undefined => Some(false)
    case Null => Some(false)
    case Str(s) => Some(Contains(s, file))
    case Arr(items) => Some(Str(file) in items)
    case _ => None
  }

  /** A `hero_image` that `?.includes` can be applied to. */
  predicate Searchable(hero: Value)
  {
    hero.Undefined? || hero.Null? || hero.Str? || hero.Arr?
  }

  /** The record pushed for image `file` of `postDir`. */
  function Info(postDir: string, yearMonth: string, file: string, isHero: bool): ImageInfo
  {
    var folder := if isHero then HERO_FOLDER else CONTENT_FOLDER;
    ImageInfo(PathJoin(PathJoin(MigrateContent.OLD_CONTENT_DIR, postDir), file),
              PathJoin(PathJoin(PathJoin(NEW_IMAGES_DIR, yearMonth), folder), file),
              isHero)
  }

  /** The loop of `findImagesInPost` over the first `|files|` directory entries. */
  function ImagesIn(postDir: string, files: seq<string>, hero: Value, yearMonth: string)
    : Result<seq<ImageInfo>, ImageError>
  {
    if files == [] then Success([])
    else
      var file := files[|files| - 1];
      match ImagesIn(postDir, files[..|files| - 1], hero, yearMonth)
      case Failure(e) => Failure(e)
      case Success(images) =>
        if !IsImage(file) then Success(images)
        else match HeroIncludes(hero, file)
          case None => Failure(HeroNotSearchable)
          case Some(isHero) => Success(images + [Info(postDir, yearMonth, file, isHero)])
  }

  /** What `findImagesInPost(postDir)` returns, or why it throws. */
  function FindImages(postDir: string, dirFiles: map<string, seq<string>>, sources: map<string, MigrateContent.Source>,
                      parse: DateParser, calendar: MigrateContent.Calendar)
    : Result<seq<ImageInfo>, ImageError>
  {
    var postPath := PathJoin(MigrateContent.OLD_CONTENT_DIR, postDir);
    var indexPath := MigrateContent.SourcePath(postDir);
    if postPath !in dirFiles then Failure(ListingUnreadable(postPath))
    else if indexPath !in sources then Failure(Unreadable(indexPath))
    else
      var data := sources[indexPath].data;
      match NewDate(Get(data, "date"), parse)
      case None => Failure(InvalidTimeValue)
      case Some(t) => ImagesIn(postDir, dirFiles[postPath], Get(data, "hero_image"), YearMonth(calendar(t)))
  }

  /** `findImagesInPost`: reads the date first, then pushes one record per image file. */
  method FindImagesInPost(postDir: string, dirFiles: map<string, seq<string>>, sources: map<string, MigrateContent.Source>,
                          parse: DateParser, calendar: MigrateContent.Calendar)
    returns (r: Result<seq<ImageInfo>, ImageError>)
    ensures r == FindImages(postDir, dirFiles, sources, parse, calendar)
  {
    var postPath := PathJoin(MigrateContent.OLD_CONTENT_DIR, postDir);
    if postPath !in dirFiles {
      return Failure(ListingUnreadable(postPath));
    }
    var files := dirFiles[postPath];
    var indexPath := PathJoin(postPath, "index.md");
    if indexPath !in sources {
      return Failure(Unreadable(indexPath));
    }
    var data := sources[indexPath].data;
    var pubDate := NewDate(Get(data, "date"), parse);
    if pubDate.None? {
      return Failure(InvalidTimeValue);
    }
    var yearMonth := YearMonth(calendar(pubDate.value));
    var hero := Get(data, "hero_image");
    var images: seq<ImageInfo> := [];
    for i := 0 to |files|
      invariant ImagesIn(postDir, files[..i], hero, yearMonth) == Success(images)
    {
      ImagesInNext(postDir, files, i, hero, yearMonth, images);
      var file := files[i];
      if IsImage(file) {
        var isHero := HeroIncludes(hero, file);
        if isHero.None? {
          ImagesInFailsFrom(postDir, files, hero, yearMonth, i + 1);
          return Failure(HeroNotSearchable);
        }
        images := images + [Info(postDir, yearMonth, file, isHero.value)];
      }
    }
    assert files[..|files|] == files;
    r := Success(images);
  }

  /** One round of the scan: the next directory entry is skipped, recorded, or fails it. */
  lemma ImagesInNext(postDir: string, files: seq<string>, i: nat, hero: Value, yearMonth: string, images: seq<ImageInfo>)
    requires i < |files| && ImagesIn(postDir, files[..i], hero, yearMonth) == Success(images)
    ensures var next := ImagesIn(postDir, files[..i + 1], hero, yearMonth);
            && (!IsImage(files[i]) ==> next == Success(images))
            && (IsImage(files[i]) && HeroIncludes(hero, files[i]).None? ==> next == Failure(HeroNotSearchable))
            && (IsImage(files[i]) && HeroIncludes(hero, files[i]).Some? ==>
                  next == Success(images + [Info(postDir, yearMonth, files[i], HeroIncludes(hero, files[i]).value)]))
  {
    var prefix := files[..i + 1];
    assert prefix[..|prefix| - 1] == files[..i] && prefix[|prefix| - 1] == files[i];
  }

  /** Once the scan fails it stays failed. */
  lemma {:induction false} ImagesInFailsFrom(postDir: string, files: seq<string>, hero: Value, yearMonth: string, k: nat)
    requires k <= |files|
    requires ImagesIn(postDir, files[..k], hero, yearMonth).Failure?
    ensures ImagesIn(postDir, files, hero, yearMonth) == ImagesIn(postDir, files[..k], hero, yearMonth)
    decreases |files| - k
  {
    if k < |files| {
      assert files[..k + 1][..k] == files[..k];
      ImagesInFailsFrom(postDir, files, hero, yearMonth, k + 1);
    } else {
      assert files[..k] == files;
    }
  }

  // ---------------------------------------------------------------------------
  // The batch

  /** `allImages` after the collect loop: each post's images in directory order, or the first failure. */
  function AllImages(dirs: seq<string>, dirFiles: map<string, seq<string>>, sources: map<string, MigrateContent.Source>,
                     parse: DateParser, calendar: MigrateContent.Calendar)
    : Result<seq<ImageInfo>, ImageError>
  {
    if dirs == [] then Success([])
    else match AllImages(dirs[..|dirs| - 1], dirFiles, sources, parse, calendar)
      case Failure(e) => Failure(e)
      case Success(before) =>
        match FindImages(dirs[|dirs| - 1], dirFiles, sources, parse, calendar)
        case Failure(e) => Failure(e)
        case Success(images) => Success(before + images)
  }

  lemma {:induction false} AllImagesFailsFrom(dirs: seq<string>, dirFiles: map<string, seq<string>>,
                                              sources: map<string, MigrateContent.Source>, parse: DateParser,
                                              calendar: MigrateContent.Calendar, k: nat)
    requires k <= |dirs|
    requires AllImages(dirs[..k], dirFiles, sources, parse, calendar).Failure?
    ensures AllImages(dirs, dirFiles, sources, parse, calendar) == AllImages(dirs[..k], dirFiles, sources, parse, calendar)
    decreases |dirs| - k
  {
    if k < |dirs| {
      assert dirs[..k + 1][..k] == dirs[..k];
      AllImagesFailsFrom(dirs, dirFiles, sources, parse, calendar, k + 1);
    } else {
      assert dirs[..k] == dirs;
    }
  }

  /** The collect loop of `migrateImages`. */
  method CollectImages(postDirs: seq<string>, dirFiles: map<string, seq<string>>, sources: map<string, MigrateContent.Source>,
                       parse: DateParser, calendar: MigrateContent.Calendar)
    returns (r: Result<seq<ImageInfo>, ImageError>)
    ensures r == AllImages(postDirs, dirFiles, sources, parse, calendar)
  {
    var allImages: seq<ImageInfo> := [];
    for i := 0 to |postDirs|
      invariant AllImages(postDirs[..i], dirFiles, sources, parse, calendar) == Success(allImages)
    {
      assert postDirs[..i + 1][..i] == postDirs[..i];
      var images := FindImagesInPost(postDirs[i], dirFiles, sources, parse, calendar);
      if images.Failure? {
        AllImagesFailsFrom(postDirs, dirFiles, sources, parse, calendar, i + 1);
        return Failure(images.error);
      }
      allImages := allImages + images.value;
    }
    assert postDirs[..|postDirs|] == postDirs;
    r := Success(allImages);
  }

  /** The images copied before the first copy that fails. */
  function CopiedBeforeFailure(images: seq<ImageInfo>, failing: set<string>): seq<ImageInfo>
  {
    if images == [] || images[0].sourcePath in failing then []
    else [images[0]] + CopiedBeforeFailure(images[1..], failing)
  }

  /** The copy loop of `migrateImages`: `failing` are the sources whose mkdir or copyFile throws. */
  method CopyImages(allImages: seq<ImageInfo>, failing: set<string>) returns (copied: seq<ImageInfo>)
    ensures copied == CopiedBeforeFailure(allImages, failing)
  {
    copied := [];
    for j := 0 to |allImages|
      invariant copied == allImages[..j]
      invariant copied + CopiedBeforeFailure(allImages[j..], failing) == CopiedBeforeFailure(allImages, failing)
    {
      assert allImages[j..][0] == allImages[j] && allImages[j..][1..] == allImages[j + 1..];
      if allImages[j].sourcePath in failing {
        assert copied + [] == copied;
        return;
      }
      assert copied + ([allImages[j]] + CopiedBeforeFailure(allImages[j + 1..], failing))
          == (copied + [allImages[j]]) + CopiedBeforeFailure(allImages[j + 1..], failing);
      copied := copied + [allImages[j]];
    }
    assert allImages[|allImages|..] == [];
  }

  function HeroImages(images: seq<ImageInfo>): seq<ImageInfo>
  {
    if images == [] then []
    else (if images[0].isHero then [images[0]] else []) + HeroImages(images[1..])
  }

  function ContentImages(images: seq<ImageInfo>): seq<ImageInfo>
  {
    if images == [] then []
    else (if images[0].isHero then [] else [images[0]]) + ContentImages(images[1..])
  }

  function Summarize(images: seq<ImageInfo>): Summary
  {
    Summary(|images|, |HeroImages(images)|, |ContentImages(images)|)
  }

  /**
   * `migrateImages`: finds every image of every post, then copies them in
   * order. A failure while finding copies nothing; a failed copy stops the
   * copying. The summary is printed only when every copy succeeded.
   */
  method MigrateImagesBatch(listing: Option<seq<Node>>, dirFiles: map<string, seq<string>>,
                            sources: map<string, MigrateContent.Source>, parse: DateParser,
                            calendar: MigrateContent.Calendar, failing: set<string>)
    returns (copied: seq<ImageInfo>, summary: Option<Summary>)
    ensures listing.None? || AllImages(Directories(listing.value), dirFiles, sources, parse, calendar).Failure? ==>
              copied == [] && summary.None?
    ensures listing.Some? && AllImages(Directories(listing.value), dirFiles, sources, parse, calendar).Success? ==>
              var all := AllImages(Directories(listing.value), dirFiles, sources, parse, calendar).value;
              && copied == CopiedBeforeFailure(all, failing)
              && (summary.Some? <==> |copied| == |all|)
              && (summary.Some? ==> summary.value == Summarize(all))
  {
    if listing.None? {
      return [], None;
    }
    var found := CollectImages(Directories(listing.value), dirFiles, sources, parse, calendar);
    if found.Failure? {
      return [], None;
    }
    copied := CopyImages(found.value, failing);
    if |copied| == |found.value| {
      summary := Some(Summarize(found.value));
    } else {
      summary := None;
    }
  }

  // ---------------------------------------------------------------------------
  // Properties

  function ImageFiles(files: seq<string>): (r: seq<string>)
    ensures forall f :: f in r <==> f in files && IsImage(f)
  {
    if files == [] then []
    else
      assert forall f :: f in files <==> f in files[..|files| - 1] || f == files[|files| - 1];
      ImageFiles(files[..|files| - 1]) + (if IsImage(files[|files| - 1]) then [files[|files| - 1]] else [])
  }

  lemma ImageFilesSnoc(init: seq<string>, f: string)
    ensures ImageFiles(init + [f]) == ImageFiles(init) + (if IsImage(f) then [f] else [])
  {
    assert (init + [f])[..|init|] == init;
  }

  /** The filter keeps listing order: it works on each part of a concatenated listing separately. */
  lemma ImageFilesAppend(a: seq<string>, b: seq<string>)
    ensures ImageFiles(a + b) == ImageFiles(a) + ImageFiles(b)
  {
    ImageFilesSelect(a);
    ImageFilesSelect(b);
    ImageFilesSelect(a + b);
    SelectAppend(a, b, IMAGE_NAMES);
  }

  /** The names with an image extension. */
  ghost const IMAGE_NAMES: iset<string> := iset f | IsImage(f)

  /** The entries of `files` that are in `names`, in listing order. */
  ghost function Select(files: seq<string>, names: iset<string>): seq<string>
  {
    if files == [] then []
    else Select(files[..|files| - 1], names) + (if files[|files| - 1] in names then [files[|files| - 1]] else [])
  }

  lemma {:induction false} ImageFilesSelect(files: seq<string>)
    ensures ImageFiles(files) == Select(files, IMAGE_NAMES)
  {
    if files != [] {
      ImageFilesSelect(files[..|files| - 1]);
      assert files[|files| - 1] in IMAGE_NAMES <==> IsImage(files[|files| - 1]);
    }
  }

  lemma {:induction false} SelectAppend(a: seq<string>, b: seq<string>, names: iset<string>)
    ensures Select(a + b, names) == Select(a, names) + Select(b, names)
  {
    if b != [] {
      var init := b[..|b| - 1];
      var f := b[|b| - 1];
      assert (a + b)[..|a + b| - 1] == a + init && (a + b)[|a + b| - 1] == f;
      SelectAppend(a, init, names);
    } else {
      assert a + b == a;
    }
  }

  /** A single entry is kept exactly when it has an image extension. */
  lemma ImageFilesOne(f: string)
    ensures ImageFiles([f]) == if IsImage(f) then [f] else []
  {
    ImageFilesSnoc([], f);
    assert [] + [f] == [f];
  }

  /** Each image file is kept as many times as the listing holds it, every other entry is dropped. */
  lemma {:induction false} ImageFilesCount(files: seq<string>, f: string)
    ensures multiset(ImageFiles(files))[f] == if IsImage(f) then multiset(files)[f] else 0
  {
    if files != [] {
      var init := files[..|files| - 1];
      var last := files[|files| - 1];
      assert files == init + [last];
      ImageFilesCount(init, f);
      ImageFilesSnoc(init, last);
    }
  }

  /** The classification of a file by a searchable `hero_image`. */
  function IsHero(hero: Value, file: string): bool
  {
    match HeroIncludes(hero, file)
    case Some(b) => b
    case None => false
  }

  /** One record per image file, in listing order. */
  function ExpectedImages(postDir: string, files: seq<string>, hero: Value, yearMonth: string): (r: seq<ImageInfo>)
    ensures |r| == |ImageFiles(files)|
  {
    var imageFiles := ImageFiles(files);
    seq(|imageFiles|, k requires 0 <= k < |imageFiles| => Info(postDir, yearMonth, imageFiles[k], IsHero(hero, imageFiles[k])))
  }

  /**
   * The scan, stated without the loop: one record per image file in listing
   * order, classified by `hero_image`; it fails exactly when there is an
   * image and `hero_image` cannot be searched.
   */
  lemma {:induction false} ImagesInSpec(postDir: string, files: seq<string>, hero: Value, yearMonth: string)
    ensures ImagesIn(postDir, files, hero, yearMonth)
            == (if ImageFiles(files) != [] && !Searchable(hero) then Failure(HeroNotSearchable)
                else Success(ExpectedImages(postDir, files, hero, yearMonth)))
  {
    if files != [] {
      var init := files[..|files| - 1];
      var file := files[|files| - 1];
      ImagesInSpec(postDir, init, hero, yearMonth);
      if !IsImage(file) {
        assert ImageFiles(files) == ImageFiles(init);
      } else if !Searchable(hero) {
        assert ImageFiles(files) == ImageFiles(init) + [file];
      } else {
        ImagesInStep(postDir, files, hero, yearMonth);
      }
    }
  }

  /** Appending an image file to the listing appends its record. */
  lemma ImagesInStep(postDir: string, files: seq<string>, hero: Value, yearMonth: string)
    requires files != [] && IsImage(files[|files| - 1]) && Searchable(hero)
    ensures var file := files[|files| - 1];
            ExpectedImages(postDir, files, hero, yearMonth)
            == ExpectedImages(postDir, files[..|files| - 1], hero, yearMonth) + [Info(postDir, yearMonth, file, IsHero(hero, file))]
  {
    var file := files[|files| - 1];
    var before := ImageFiles(files[..|files| - 1]);
    var after := ImageFiles(files);
    assert after == before + [file];
    var expected := ExpectedImages(postDir, files, hero, yearMonth);
    var prefix := ExpectedImages(postDir, files[..|files| - 1], hero, yearMonth);
    var info := Info(postDir, yearMonth, file, IsHero(hero, file));
    forall k | 0 <= k < |expected| ensures expected[k] == (prefix + [info])[k] {
      if k < |prefix| {
        assert after[k] == before[k];
      }
    }
  }

  /** An image keeps its file name, and its target is the month's hero or content folder. */
  lemma InfoPaths(postDir: string, yearMonth: string, file: string, isHero: bool)
    requires EntryName(postDir) && EntryName(file) && yearMonth != ""
    ensures var info := Info(postDir, yearMonth, file, isHero);
            && info.sourcePath == MigrateContent.OLD_CONTENT_DIR + "/" + postDir + "/" + file
            && info.targetPath == NEW_IMAGES_DIR + "/" + yearMonth + "/"
                                  + (if isHero then HERO_FOLDER else CONTENT_FOLDER) + "/" + file
            && BaseName(info.sourcePath) == file && BaseName(info.targetPath) == file
  {
    var info := Info(postDir, yearMonth, file, isHero);
    BaseNameOfJoin(PathJoin(MigrateContent.OLD_CONTENT_DIR, postDir), file);
    BaseNameOfJoin(PathJoin(PathJoin(NEW_IMAGES_DIR, yearMonth), if isHero then HERO_FOLDER else CONTENT_FOLDER), file);
  }

  /** Every image is counted once, as a hero image or as a content image. */
  lemma {:induction false} SummaryAddsUp(images: seq<ImageInfo>)
    ensures Summarize(images).hero + Summarize(images).content == Summarize(images).total
    ensures forall i :: i in HeroImages(images) <==> i in images && i.isHero
    ensures forall i :: i in ContentImages(images) <==> i in images && !i.isHero
  {
    if images != [] {
      SummaryAddsUp(images[1..]);
      assert forall i :: i in images <==> i == images[0] || i in images[1..];
    }
  }

  /** The copy stops at the first failing source; everything before it is copied, in order. */
  lemma {:induction false} CopyStopsAtFailure(images: seq<ImageInfo>, failing: set<string>)
    ensures var c := CopiedBeforeFailure(images, failing);
            && |c| <= |images| && c == images[..|c|]
            && (forall k :: 0 <= k < |c| ==> images[k].sourcePath !in failing)
            && (|c| < |images| ==> images[|c|].sourcePath in failing)
  {
    if images != [] && images[0].sourcePath !in failing {
      CopyStopsAtFailure(images[1..], failing);
      var c := CopiedBeforeFailure(images, failing);
      assert c == [images[0]] + CopiedBeforeFailure(images[1..], failing);
      forall k | 1 <= k < |c| ensures images[k].sourcePath !in failing {
        assert images[k] == images[1..][k - 1];
      }
    }
  }

  /** A name `<stem>.<ext>` with a non-empty stem is an image exactly when `.<ext>`, lower-cased, is listed. */
  lemma ImageByExtension(stem: string, ext: string)
    requires stem != "" && ext != "" && forall j :: 0 <= j < |ext| ==> ext[j] != '.'
    ensures IsImage(stem + "." + ext) <==> ToLower("." + ext) in IMAGE_EXTENSIONS
  {
    assert |stem + "." + ext| > 2;
    ExtNameOf(stem, ext);
  }

  /** A dot-file has no extension, so it is never an image, `.png` included. */
  lemma DotFileSkipped(ext: string)
    requires forall j :: 0 <= j < |ext| ==> ext[j] != '.'
    ensures !IsImage("." + ext)
  {
    assert "" + "." + ext == "." + ext;
    assert "." + ext != ".." by {
      if |ext| == 1 {
        assert ("." + ext)[1] != '.';
      }
    }
    ExtNameOf("", ext);
    assert ToLower("") == "";
  }

  /** The extension test ignores case: `cover.JPG` is an image. */
  lemma UpperCaseImage()
    ensures IsImage("cover.JPG")
  {
    ImageByExtension("cover", "JPG");
    assert "cover" + "." + "JPG" == "cover.JPG";
    assert "." + "JPG" == ".JPG";
    LowerJpg();
  }

  /** `.JPG` lower-cases to the first listed extension. */
  lemma LowerJpg()
    ensures ToLower(".JPG") == IMAGE_EXTENSIONS[0]
  {
    var upper := ".JPG";
    var lower := ToLower(upper);
    assert upper[0] == '.' && upper[1] == 'J' && upper[2] == 'P' && upper[3] == 'G';
    assert |lower| == 4 && lower[0] == '.' && lower[1] == 'j' && lower[2] == 'p' && lower[3] == 'g';
  }

  /**
   * The test is a substring test: every file whose name ends `hero_image` is
   * classified as a hero image (with `./banana.png`, also `a.png`).
   */
  lemma SuffixClassifiedHero(prefix: string, file: string)
    ensures HeroIncludes(Str(prefix + file), file) == Some(true)
  {
    InfixOccurs(prefix, file, "");
    assert prefix + file + "" == prefix + file;
    ContainsIff(prefix + file, file);
  }

  /** A `hero_image` given as `./<file>` classifies `<file>` as the hero image. */
  lemma HeroFileClassified(postDir: string, files: seq<string>, file: string, yearMonth: string)
    requires file in files && IsImage(file)
    ensures ImagesIn(postDir, files, Str("./" + file), yearMonth).Success?
    ensures Info(postDir, yearMonth, file, true) in ImagesIn(postDir, files, Str("./" + file), yearMonth).value
  {
    var hero := Str("./" + file);
    ImagesInSpec(postDir, files, hero, yearMonth);
    var imageFiles := ImageFiles(files);
    var k :| 0 <= k < |imageFiles| && imageFiles[k] == file;
    SuffixClassifiedHero("./", file);
    assert ExpectedImages(postDir, files, hero, yearMonth)[k] == Info(postDir, yearMonth, file, true);
  }

  /** The hero target of `<file>` is `src` followed by the `heroImage` of `./<file>`. */
  lemma HeroTargetPath(postDir: string, yearMonth: string, file: string)
    requires yearMonth != ""
    ensures Info(postDir, yearMonth, file, true).targetPath == "src" + MigrateContent.HeroImagePath(yearMonth, "./" + file)
  {
    assert MigrateContent.HeroImagePath(yearMonth, "./" + file) == "/images/" + yearMonth + "/hero-images/" + file by {
      ReplaceLeading("./", file);
    }
    HeroPathRegroup(yearMonth, file);
  }

  lemma HeroPathRegroup(yearMonth: string, file: string)
    ensures NEW_IMAGES_DIR + "/" + yearMonth + "/" + HERO_FOLDER + "/" + file
            == "src" + ("/images/" + yearMonth + "/hero-images/" + file)
  {
    var images := "/images/";
    var hero := "/hero-images/";
    Regroup("src", images + yearMonth + hero, file);
    Regroup("src", images + yearMonth, hero);
    Regroup("src", images, yearMonth);
    assert "src" + images == NEW_IMAGES_DIR + "/";
    var x := NEW_IMAGES_DIR + "/" + yearMonth;
    Regroup(x, "/", HERO_FOLDER);
    Regroup(x, "/" + HERO_FOLDER, "/");
    assert "/" + HERO_FOLDER + "/" == hero;
  }

  /**
   * A hero image given as `./<file>` in the post's directory is copied to
   * `src` followed by the `heroImage` that the content migration writes for
   * the same post.
   */
  lemma HeroTargetMatchesContent(postDir: string, file: string, dirFiles: map<string, seq<string>>,
                                 sources: map<string, MigrateContent.Source>, parse: DateParser,
                                 calendar: MigrateContent.Calendar, now: Instant)
    requires EntryName(postDir) && EntryName(file) && IsImage(file)
    requires PathJoin(MigrateContent.OLD_CONTENT_DIR, postDir) in dirFiles
    requires file in dirFiles[PathJoin(MigrateContent.OLD_CONTENT_DIR, postDir)]
    requires MigrateContent.SourcePath(postDir) in sources
    requires Get(sources[MigrateContent.SourcePath(postDir)].data, "hero_image") == Str("./" + file)
    requires NewDate(Get(sources[MigrateContent.SourcePath(postDir)].data, "date"), parse).Some?
    ensures var r := FindImages(postDir, dirFiles, sources, parse, calendar);
            var m := MigrateContent.Migrate(postDir, sources, parse, calendar, now);
            && r.Success? && m.Success?
            && var heroImage := Get(MigrateContent.ToMap(m.value.frontmatter), "heroImage");
               && heroImage.Str?
               && exists img :: img in r.value && img.isHero && img.targetPath == "src" + heroImage.s
  {
    var source := sources[MigrateContent.SourcePath(postDir)];
    var t := NewDate(Get(source.data, "date"), parse).value;
    var ym := YearMonth(calendar(t));
    var files := dirFiles[PathJoin(MigrateContent.OLD_CONTENT_DIR, postDir)];
    HeroFileClassified(postDir, files, file, ym);
    assert |ym| > 0;
    HeroTargetPath(postDir, ym, file);
    MigrateContent.OptionalObjectFields(source.data, source.markdown, calendar(t), calendar(now));
  }
}
