/**
 * The one-off migration of legacy posts (`old-content/blog/<dir>/index.md`)
 * to the collection layout (`src/content/blog/posts/yyyy/MM/<dir>.md`) with
 * the new frontmatter fields. The file system is a map from path to the
 * parsed file; the clock reading and the local-time calendar are parameters.
 */
module MigrateContent {
  import opened Wrappers
  import opened JsValues
  import opened Text
  import opened Paths
  import opened Dates
  import opened BlogSchema
  import ContentConfig

  const OLD_CONTENT_DIR: string := "old-content/blog"
  const NEW_CONTENT_DIR: string := "src/content/blog/posts"
  const UPDATE_MARKER: string := "### Update"

  /** A legacy `index.md` as gray-matter splits it: frontmatter data and Markdown body. */
  datatype Source = Source(data: Frontmatter, markdown: string)

  /** A key of the new frontmatter and its value; the list keeps the order keys were added. */
  type Field = (string, Value)

  /** What `processPost` writes: the new path, the frontmatter handed to `matter.stringify`, the body. */
  datatype MigratedPost = MigratedPost(path: string, frontmatter: seq<Field>, markdown: string)

  datatype MigrationError =
    | Unreadable(path: string)  // readFile fails or gray-matter cannot parse the file
    | HeroImageNotString        // `data.hero_image.replace` is not a function
    | InvalidTimeValue          // date-fns `format` throws RangeError on an invalid date

  /** The local-time calendar date of an instant, as date-fns `format` reads it. */
  type Calendar = Instant -> CalendarDate

  function SourcePath(postDir: string): string
  {
    PathJoin(PathJoin(OLD_CONTENT_DIR, postDir), "index.md")
  }

  function TargetPath(yearMonth: string, postDir: string): string
  {
    PathJoin(PathJoin(NEW_CONTENT_DIR, yearMonth), postDir + ".md")
  }

  /** `/images/${yearMonth}/hero-images/${hero_image.replace('./', '')}`. */
  function HeroImagePath(yearMonth: string, heroImage: string): string
  {
    "/images/" + yearMonth + "/hero-images/" + ReplaceFirst(heroImage, "./", "")
  }

  function Keys(fm: seq<Field>): (r: seq<string>)
    ensures |r| == |fm| && forall i :: 0 <= i < |fm| ==> r[i] == fm[i].0
  {
    seq(|fm|, i requires 0 <= i < |fm| => fm[i].0)
  }

  predicate Distinct(keys: seq<string>)
  {
    forall i, j :: 0 <= i < j < |keys| ==> keys[i] != keys[j]
  }

  /** The keys every migrated post has, in the order the object literal lists them. */
  const FIXED_KEYS: seq<string> := ["title", "description", "pubDate", "author", "tags", "featured", "draft"]

  /** The object literal `newFrontmatter` starts from. */
  function FixedFields(data: Frontmatter, day: CalendarDate): seq<Field>
  {
    [ ("title", Get(data, "title")),
      ("description", Get(data, "description")),
      ("pubDate", Str(IsoDay(day))),
      ("author", OrElse(Get(data, "author"), Str(DEFAULT_AUTHOR))),
      ("tags", OrElse(Get(data, "tags"), Arr([]))),
      ("featured", Bool(false)),
      ("draft", Bool(false)) ]
  }

  /** `updatedDate`, present when the body has an update section. */
  function UpdateFields(markdown: string, today: CalendarDate): seq<Field>
  {
    if Contains(markdown, UPDATE_MARKER) then [("updatedDate", Str(IsoDay(today)))] else []
  }

  /** `heroImage`, and `heroCaption` with it, for a string `hero_image`. */
  function HeroFields(data: Frontmatter, yearMonth: string): seq<Field>
  {
    var hero := Get(data, "hero_image");
    var caption := Get(data, "hero_caption");
    if Truthy(hero) && hero.Str? then
      [("heroImage", Str(HeroImagePath(yearMonth, hero.s)))]
      + (if Truthy(caption) then [("heroCaption", caption)] else [])
    else []
  }

  function NewFrontmatter(data: Frontmatter, markdown: string, day: CalendarDate, today: CalendarDate): seq<Field>
  {
    FixedFields(data, day) + UpdateFields(markdown, today) + HeroFields(data, YearMonth(day))
  }

  /** What `processPost(postDir)` writes, or why it throws. */
  function Migrate(postDir: string, sources: map<string, Source>, parse: DateParser, calendar: Calendar, now: Instant)
    : Result<MigratedPost, MigrationError>
  {
    var path := SourcePath(postDir);
    if path !in sources then Failure(Unreadable(path))
    else
      var data := sources[path].data;
      var markdown := sources[path].markdown;
      var hero := Get(data, "hero_image");
      var pubDate := NewDate(Get(data, "date"), parse);
      if Truthy(hero) && !hero.Str? then Failure(HeroImageNotString)
      else if pubDate.None? then Failure(InvalidTimeValue)
      else
        var day := calendar(pubDate.value);
        Success(MigratedPost(TargetPath(YearMonth(day), postDir),
                             NewFrontmatter(data, markdown, day, calendar(now)), markdown))
  }

  /**
   * `processPost`: builds `newPost`, then `newFrontmatter` with the optional
   * keys added one by one, and the target path.
   */
  method ProcessPost(postDir: string, sources: map<string, Source>, parse: DateParser, calendar: Calendar, now: Instant)
    returns (r: Result<MigratedPost, MigrationError>)
    ensures r == Migrate(postDir, sources, parse, calendar, now)
  {
    var postPath := SourcePath(postDir);
    if postPath !in sources {
      return Failure(Unreadable(postPath));
    }
    var data := sources[postPath].data;
    var markdown := sources[postPath].markdown;
    var pubDate := NewDate(Get(data, "date"), parse);

    var updatedDate: Option<Instant> := None;
    if Contains(markdown, UPDATE_MARKER) {
      updatedDate := Some(now);
    }

    var heroImage: Option<string> := None;
    var heroCaption: Option<Value> := None;
    var hero := Get(data, "hero_image");
    if Truthy(hero) {
      if !hero.Str? {
        return Failure(HeroImageNotString);
      }
      if pubDate.None? {
        return Failure(InvalidTimeValue);
      }
      heroImage := Some(HeroImagePath(YearMonth(calendar(pubDate.value)), hero.s));
      if Truthy(Get(data, "hero_caption")) {
        heroCaption := Some(Get(data, "hero_caption"));
      }
    }

    if pubDate.None? {
      return Failure(InvalidTimeValue);
    }
    var day := calendar(pubDate.value);
    var frontmatter := FixedFields(data, day);
    if updatedDate.Some? {
      frontmatter := frontmatter + [("updatedDate", Str(IsoDay(calendar(updatedDate.value))))];
    }
    ghost var withUpdate := frontmatter;
    assert withUpdate == FixedFields(data, day) + UpdateFields(markdown, calendar(now));
    if heroImage.Some? {
      frontmatter := frontmatter + [("heroImage", Str(heroImage.value))];
    }
    if heroCaption.Some? && Truthy(heroCaption.value) {
      frontmatter := frontmatter + [("heroCaption", heroCaption.value)];
    }
    assert frontmatter == withUpdate + HeroFields(data, YearMonth(day));
    r := Success(MigratedPost(TargetPath(YearMonth(day), postDir), frontmatter, markdown));
  }

  // ---------------------------------------------------------------------------
  // The batch

  /** A migration of one post directory, from its path to the post it writes or the error it stops on. */
  type PostMigration = string -> Result<MigratedPost, MigrationError>

  /** `processPost` of one post directory, with everything it reads fixed. */
  function MigrateWith(sources: map<string, Source>, parse: DateParser, calendar: Calendar, now: Instant): PostMigration
  {
    postDir => Migrate(postDir, sources, parse, calendar, now)
  }

  /** The posts written before the first failure, in directory order, for any per-post migration. */
  function WrittenBy(dirs: seq<string>, migrate: PostMigration): seq<MigratedPost>
  {
    if dirs == [] then []
    else match migrate(dirs[0])
      case Failure(_) => []
      case Success(p) => [p] + WrittenBy(dirs[1..], migrate)
  }

  /** The posts `migrateContent` writes before the first failure, in directory order. */
  function Written(dirs: seq<string>, sources: map<string, Source>, parse: DateParser, calendar: Calendar, now: Instant)
    : seq<MigratedPost>
  {
    WrittenBy(dirs, MigrateWith(sources, parse, calendar, now))
  }

  /**
   * `migrateContent`: every post directory in listing order, stopping at the
   * first post that throws. `complete` is whether "Migration complete!" is
   * logged; a listing that cannot be read (None) writes nothing.
   */
  method MigrateContentBatch(listing: Option<seq<Node>>, sources: map<string, Source>, parse: DateParser,
                             calendar: Calendar, now: Instant)
    returns (written: seq<MigratedPost>, complete: bool)
    ensures listing.None? ==> written == [] && !complete
    ensures listing.Some? ==>
              var dirs := Directories(listing.value);
              written == Written(dirs, sources, parse, calendar, now) && (complete <==> |written| == |dirs|)
  {
    if listing.None? {
      return [], false;
    }
    written, complete := ProcessAll(Directories(listing.value), sources, parse, calendar, now);
  }

  /** The loop of `migrateContent` over the post directories. */
  method ProcessAll(postDirs: seq<string>, sources: map<string, Source>, parse: DateParser, calendar: Calendar, now: Instant)
    returns (written: seq<MigratedPost>, complete: bool)
    ensures written == Written(postDirs, sources, parse, calendar, now)
    ensures complete <==> |written| == |postDirs|
  {
    written := [];
    for i := 0 to |postDirs|
      invariant |written| == i
      invariant written + Written(postDirs[i..], sources, parse, calendar, now) == Written(postDirs, sources, parse, calendar, now)
    {
      var r := ProcessPost(postDirs[i], sources, parse, calendar, now);
      WrittenFrom(postDirs, i, sources, parse, calendar, now);
      if r.Failure? {
        assert written + [] == written;
        return written, false;
      }
      ghost var rest := Written(postDirs[i + 1..], sources, parse, calendar, now);
      assert written + ([r.value] + rest) == (written + [r.value]) + rest;
      written := written + [r.value];
    }
    assert postDirs[|postDirs|..] == [];
    complete := true;
  }

  /** One step of `Written` from position `i`. */
  lemma WrittenFrom(dirs: seq<string>, i: nat, sources: map<string, Source>, parse: DateParser, calendar: Calendar, now: Instant)
    requires i < |dirs|
    ensures var r := Migrate(dirs[i], sources, parse, calendar, now);
            Written(dirs[i..], sources, parse, calendar, now)
            == if r.Failure? then [] else [r.value] + Written(dirs[i + 1..], sources, parse, calendar, now)
  {
    assert dirs[i..][0] == dirs[i] && dirs[i..][1..] == dirs[i + 1..];
  }

  // ---------------------------------------------------------------------------
  // Properties

  /**
   * The batch writes the posts of a prefix of the directories, each as
   * migrated on its own, and stops exactly at the first one that fails.
   */
  lemma WrittenStopsAtFailure(dirs: seq<string>, sources: map<string, Source>, parse: DateParser,
                              calendar: Calendar, now: Instant)
    ensures var w := Written(dirs, sources, parse, calendar, now);
            && |w| <= |dirs|
            && (forall k :: 0 <= k < |w| ==> Migrate(dirs[k], sources, parse, calendar, now) == Success(w[k]))
            && (|w| < |dirs| ==> Migrate(dirs[|w|], sources, parse, calendar, now).Failure?)
            && (|w| == |dirs| <==> forall k :: 0 <= k < |dirs| ==> Migrate(dirs[k], sources, parse, calendar, now).Success?)
  {
    WrittenByStops(dirs, MigrateWith(sources, parse, calendar, now));
  }

  lemma {:induction false} WrittenByStops(dirs: seq<string>, migrate: PostMigration)
    ensures var w := WrittenBy(dirs, migrate);
            && |w| <= |dirs|
            && (forall k :: 0 <= k < |w| ==> migrate(dirs[k]) == Success(w[k]))
            && (|w| < |dirs| ==> migrate(dirs[|w|]).Failure?)
            && (|w| == |dirs| <==> forall k :: 0 <= k < |dirs| ==> migrate(dirs[k]).Success?)
  {
    if dirs != [] {
      WrittenByStops(dirs[1..], migrate);
      var w := WrittenBy(dirs, migrate);
      var rest := WrittenBy(dirs[1..], migrate);
      if migrate(dirs[0]).Success? {
        assert w == [migrate(dirs[0]).value] + rest;
        forall k | 1 <= k < |dirs| ensures dirs[k] == dirs[1..][k - 1] { }
        if |w| == |dirs| {
          forall k | 0 <= k < |dirs| ensures migrate(dirs[k]).Success? {
            if k > 0 { assert migrate(dirs[1..][k - 1]).Success?; }
          }
        }
        if forall k :: 0 <= k < |dirs| ==> migrate(dirs[k]).Success? {
          forall k | 0 <= k < |dirs[1..]| ensures migrate(dirs[1..][k]).Success? {
            assert migrate(dirs[k + 1]).Success?;
          }
        }
      }
    }
  }


  /**
   * A post migrates unless its file cannot be read, its truthy `hero_image`
   * is not a string, or its `date` is not a valid date; a bad hero image is
   * reported before a bad date.
   */
  lemma MigrateOutcome(postDir: string, sources: map<string, Source>, parse: DateParser, calendar: Calendar, now: Instant)
    ensures var r := Migrate(postDir, sources, parse, calendar, now);
            var path := SourcePath(postDir);
            && (path !in sources <==> r == Failure(Unreadable(path)))
            && (path in sources ==>
                 var hero := Get(sources[path].data, "hero_image");
                 var date := NewDate(Get(sources[path].data, "date"), parse);
                 && (r == Failure(HeroImageNotString) <==> Truthy(hero) && !hero.Str?)
                 && (r == Failure(InvalidTimeValue) <==> (!Truthy(hero) || hero.Str?) && date.None?)
                 && (r.Success? <==> (!Truthy(hero) || hero.Str?) && date.Some?))
  {
  }

  /** `hero_image` is absent, falsy or a string: the case where `processPost` gets past line 54. */
  predicate HeroUsable(data: Frontmatter)
  {
    !Truthy(Get(data, "hero_image")) || Get(data, "hero_image").Str?
  }

  /**
   * The new frontmatter has the seven fixed keys, then `updatedDate` exactly
   * when the body has an update section, `heroImage` exactly when
   * `hero_image` is truthy, and `heroCaption` exactly when `hero_caption` is
   * truthy too; no key appears twice.
   */
  lemma FrontmatterKeys(data: Frontmatter, markdown: string, day: CalendarDate, today: CalendarDate)
    requires HeroUsable(data)
    ensures var fm := NewFrontmatter(data, markdown, day, today);
            && Keys(fm) == FIXED_KEYS
                          + (if Contains(markdown, UPDATE_MARKER) then ["updatedDate"] else [])
                          + (if Truthy(Get(data, "hero_image")) then ["heroImage"] else [])
                          + (if Truthy(Get(data, "hero_image")) && Truthy(Get(data, "hero_caption"))
                             then ["heroCaption"] else [])
            && Distinct(Keys(fm))
            && ("updatedDate" in Keys(fm) <==> Contains(markdown, UPDATE_MARKER))
            && ("heroImage" in Keys(fm) <==> Truthy(Get(data, "hero_image")))
            && ("heroCaption" in Keys(fm) <==> Truthy(Get(data, "hero_image")) && Truthy(Get(data, "hero_caption")))
  {
    var fm := NewFrontmatter(data, markdown, day, today);
    var u := if Contains(markdown, UPDATE_MARKER) then ["updatedDate"] else [];
    var h := if Truthy(Get(data, "hero_image")) then ["heroImage"] else [];
    var c := if Truthy(Get(data, "hero_image")) && Truthy(Get(data, "hero_caption")) then ["heroCaption"] else [];
    var fixed, update, heroes := FixedFields(data, day), UpdateFields(markdown, today), HeroFields(data, YearMonth(day));
    assert Keys(fixed) == FIXED_KEYS;
    assert Keys(update) == u;
    assert Keys(heroes) == h + c;
    KeysAppend(fixed, update);
    KeysAppend(fixed + update, heroes);
    assert FIXED_KEYS + u + (h + c) == FIXED_KEYS + u + h + c;
    DistinctKeys(u, h, c);
    OptionalKeys(u, h, c);
  }

  lemma KeysAppend(a: seq<Field>, b: seq<Field>)
    ensures Keys(a + b) == Keys(a) + Keys(b)
  {
  }

  /** An optional key is among the keys exactly when it was added. */
  lemma OptionalKeys(u: seq<string>, h: seq<string>, c: seq<string>)
    requires u == [] || u == ["updatedDate"]
    requires h == [] || h == ["heroImage"]
    requires c == [] || c == ["heroCaption"]
    ensures var ks := FIXED_KEYS + u + h + c;
            && ("updatedDate" in ks <==> u != [])
            && ("heroImage" in ks <==> h != [])
            && ("heroCaption" in ks <==> c != [])
  {
    var ks := FIXED_KEYS + u + h + c;
    forall i | 0 <= i < |ks|
      ensures ks[i] == "updatedDate" ==> u != []
      ensures ks[i] == "heroImage" ==> h != []
      ensures ks[i] == "heroCaption" ==> c != []
    {
      assert ks[i] in FIXED_KEYS + u + h + c;
      if i < |FIXED_KEYS| {
        assert ks[i][0] in "tdpaf";
      } else if i < |FIXED_KEYS| + |u| {
        assert ks[i] == "updatedDate";
      } else if i < |FIXED_KEYS| + |u| + |h| {
        assert ks[i] == "heroImage";
      }
    }
    if u != [] { assert ks[|FIXED_KEYS|] == "updatedDate"; }
    if h != [] { assert ks[|FIXED_KEYS| + |u|] == "heroImage"; }
    if c != [] { assert ks[|FIXED_KEYS| + |u| + |h|] == "heroCaption"; }
  }

  lemma DistinctKeys(u: seq<string>, h: seq<string>, c: seq<string>)
    requires u == [] || u == ["updatedDate"]
    requires h == [] || h == ["heroImage"]
    requires c == [] || c == ["heroCaption"]
    ensures Distinct(FIXED_KEYS + u + h + c)
  {
    var ks := FIXED_KEYS + u + h + c;
    forall i, j | 0 <= i < j < |ks| ensures ks[i] != ks[j] {
      assert ks[i] in FIXED_KEYS + ["updatedDate", "heroImage", "heroCaption"];
      if |ks[i]| == |ks[j]| {
        assert ks[i][0] != ks[j][0];
      }
    }
  }

  /**
   * The values: title and description pass through, `pubDate` is the
   * `yyyy-MM-dd` text of the post's date, author and tags fall back to
   * `'Cleaver Barnes'` and `[]` when falsy, `featured` and `draft` are false,
   * `updatedDate` is today's date, and the caption passes through.
   */
  lemma FrontmatterValues(data: Frontmatter, markdown: string, day: CalendarDate, today: CalendarDate)
    requires HeroUsable(data)
    ensures var fm := NewFrontmatter(data, markdown, day, today);
            && ("title", Get(data, "title")) in fm
            && ("description", Get(data, "description")) in fm
            && ("pubDate", Str(IsoDay(day))) in fm
            && ("author", if Truthy(Get(data, "author")) then Get(data, "author") else Str(DEFAULT_AUTHOR)) in fm
            && ("tags", if Truthy(Get(data, "tags")) then Get(data, "tags") else Arr([])) in fm
            && ("featured", Bool(false)) in fm
            && ("draft", Bool(false)) in fm
            && (Contains(markdown, UPDATE_MARKER) ==> ("updatedDate", Str(IsoDay(today))) in fm)
            && (Truthy(Get(data, "hero_image")) ==>
                  ("heroImage", Str(HeroImagePath(YearMonth(day), Get(data, "hero_image").s))) in fm)
            && (Truthy(Get(data, "hero_image")) && Truthy(Get(data, "hero_caption")) ==>
                  ("heroCaption", Get(data, "hero_caption")) in fm)
  {
    var fixed := FixedFields(data, day);
    var fm := NewFrontmatter(data, markdown, day, today);
    assert forall k :: 0 <= k < |fixed| ==> fixed[k] in fm by {
      forall k | 0 <= k < |fixed| ensures fixed[k] in fm { assert fm[k] == fixed[k]; }
    }
    assert fixed[3].1 == OrElse(Get(data, "author"), Str(DEFAULT_AUTHOR));
  }

  /** A hero image given as `./<file>` is served from the hero-images folder of the post's month. */
  lemma HeroImageOfRelativeFile(data: Frontmatter, yearMonth: string, file: string)
    requires Get(data, "hero_image") == Str("./" + file)
    ensures HeroFields(data, yearMonth)[0] == ("heroImage", Str("/images/" + yearMonth + "/hero-images/" + file))
  {
    ReplaceLeading("./", file);
  }

  /**
   * The output path is `NEW_CONTENT_DIR/yyyy/MM/<postDir>.md` with the year
   * and month digits of the `pubDate` text (for four-digit years), and the
   * Markdown body is written unchanged.
   */
  lemma TargetFollowsPubDate(postDir: string, sources: map<string, Source>, parse: DateParser, calendar: Calendar, now: Instant)
    requires Migrate(postDir, sources, parse, calendar, now).Success?
    requires FixedWidth(calendar(NewDate(Get(sources[SourcePath(postDir)].data, "date"), parse).value))
    ensures var post := Migrate(postDir, sources, parse, calendar, now).value;
            var d := IsoDay(calendar(NewDate(Get(sources[SourcePath(postDir)].data, "date"), parse).value));
            && post.frontmatter[2] == ("pubDate", Str(d))
            && post.path == NEW_CONTENT_DIR + "/" + d[..4] + "/" + d[5..7] + "/" + postDir + ".md"
            && post.markdown == sources[SourcePath(postDir)].markdown
  {
    var src := sources[SourcePath(postDir)];
    var day := calendar(NewDate(Get(src.data, "date"), parse).value);
    assert Migrate(postDir, sources, parse, calendar, now).value
           == MigratedPost(TargetPath(YearMonth(day), postDir), NewFrontmatter(src.data, src.markdown, day, calendar(now)), src.markdown);
    assert NewFrontmatter(src.data, src.markdown, day, calendar(now))[2] == FixedFields(src.data, day)[2];
    TargetOfDay(day, postDir);
  }

  /** The month bucket of the target path is the year and month of the `pubDate` text. */
  lemma TargetOfDay(day: CalendarDate, postDir: string)
    requires FixedWidth(day)
    ensures var d := IsoDay(day);
            TargetPath(YearMonth(day), postDir) == NEW_CONTENT_DIR + "/" + d[..4] + "/" + d[5..7] + "/" + postDir + ".md"
  {
    var ym := YearMonth(day);
    BucketAgreesWithDay(day);
    YearMonthRoundTrip(day);
    assert ym == ym[..4] + "/" + ym[5..];
  }

  /**
   * The clock only reaches `updatedDate`: two runs at different times give
   * the same outcome, path and body, and the same frontmatter unless the body
   * has an update section, where they differ at most in `updatedDate`'s value.
   */
  lemma OnlyUpdatedDateReadsClock(postDir: string, sources: map<string, Source>, parse: DateParser, calendar: Calendar,
                                  now1: Instant, now2: Instant)
    ensures var r1 := Migrate(postDir, sources, parse, calendar, now1);
            var r2 := Migrate(postDir, sources, parse, calendar, now2);
            && r1.Success? == r2.Success?
            && (r1.Failure? ==> r1 == r2)
            && (r1.Success? ==>
                  && r1.value.path == r2.value.path
                  && r1.value.markdown == r2.value.markdown
                  && Keys(r1.value.frontmatter) == Keys(r2.value.frontmatter)
                  && (!Contains(r1.value.markdown, UPDATE_MARKER) ==> r1 == r2)
                  && forall k :: 0 <= k < |r1.value.frontmatter| && r1.value.frontmatter[k].0 != "updatedDate" ==>
                       r1.value.frontmatter[k] == r2.value.frontmatter[k])
  {
    var r1 := Migrate(postDir, sources, parse, calendar, now1);
    var r2 := Migrate(postDir, sources, parse, calendar, now2);
    if r1.Success? {
      var src := sources[SourcePath(postDir)];
      var day := calendar(NewDate(Get(src.data, "date"), parse).value);
      var fixed := FixedFields(src.data, day);
      var hero := HeroFields(src.data, YearMonth(day));
      var u1 := UpdateFields(src.markdown, calendar(now1));
      var u2 := UpdateFields(src.markdown, calendar(now2));
      assert r1.value.frontmatter == fixed + u1 + hero;
      assert r2.value.frontmatter == fixed + u2 + hero;
      forall k | 0 <= k < |fixed + u1 + hero| && (fixed + u1 + hero)[k].0 != "updatedDate"
        ensures (fixed + u1 + hero)[k] == (fixed + u2 + hero)[k]
      {
      }
    }
  }

  /** The collection loader gives the migrated file the id `/blog/<postDir>`. */
  lemma MigratedPostId(postDir: string, sources: map<string, Source>, parse: DateParser, calendar: Calendar, now: Instant)
    requires EntryName(postDir)
    requires Migrate(postDir, sources, parse, calendar, now).Success?
    ensures ContentConfig.GenerateId(Migrate(postDir, sources, parse, calendar, now).value.path) == "/blog/" + postDir
  {
    var day := calendar(NewDate(Get(sources[SourcePath(postDir)].data, "date"), parse).value);
    ContentConfig.IdOfMarkdownFile(PathJoin(NEW_CONTENT_DIR, YearMonth(day)), postDir);
  }

  // ---------------------------------------------------------------------------
  // The migrated frontmatter against the collection schema

  /** The frontmatter as an object: each key set in turn. */
  function ToMap(fm: seq<Field>): Frontmatter
  {
    if fm == [] then map[] else ToMap(fm[..|fm| - 1])[fm[|fm| - 1].0 := fm[|fm| - 1].1]
  }

  lemma {:induction false} ToMapGet(fm: seq<Field>, key: string, v: Value)
    requires Distinct(Keys(fm)) && (key, v) in fm
    ensures Get(ToMap(fm), key) == v
  {
    var init := fm[..|fm| - 1];
    if fm[|fm| - 1] != (key, v) {
      var k :| 0 <= k < |fm| && fm[k] == (key, v);
      assert Keys(fm)[k] == key;
      assert k < |fm| - 1;
      assert init[k] == fm[k];
      assert Keys(init) == Keys(fm)[..|fm| - 1];
      ToMapGet(init, key, v);
      assert fm[|fm| - 1].0 != key by { assert Keys(fm)[|fm| - 1] != Keys(fm)[k]; }
    }
  }

  lemma {:induction false} ToMapAbsent(fm: seq<Field>, key: string)
    requires key !in Keys(fm)
    ensures Get(ToMap(fm), key) == Undefined
  {
    if fm != [] {
      assert Keys(fm[..|fm| - 1]) == Keys(fm)[..|fm| - 1];
      assert Keys(fm)[|fm| - 1] == fm[|fm| - 1].0;
      ToMapAbsent(fm[..|fm| - 1], key);
    }
  }

  /** The new frontmatter read as an object, key by key. */
  lemma FrontmatterObject(data: Frontmatter, markdown: string, day: CalendarDate, today: CalendarDate)
    requires HeroUsable(data)
    ensures var m := ToMap(NewFrontmatter(data, markdown, day, today));
            var hero := Get(data, "hero_image");
            var caption := Get(data, "hero_caption");
            && Get(m, "title") == Get(data, "title")
            && Get(m, "description") == Get(data, "description")
            && Get(m, "pubDate") == Str(IsoDay(day))
            && Get(m, "author") == OrElse(Get(data, "author"), Str(DEFAULT_AUTHOR))
            && Get(m, "tags") == OrElse(Get(data, "tags"), Arr([]))
            && Get(m, "featured") == Bool(false)
            && Get(m, "draft") == Bool(false)
            && Get(m, "updatedDate") == (if Contains(markdown, UPDATE_MARKER) then Str(IsoDay(today)) else Undefined)
            && Get(m, "heroImage") == (if Truthy(hero) then Str(HeroImagePath(YearMonth(day), hero.s)) else Undefined)
            && Get(m, "heroCaption") == (if Truthy(hero) && Truthy(caption) then caption else Undefined)
  {
    var fm := NewFrontmatter(data, markdown, day, today);
    FrontmatterKeys(data, markdown, day, today);
    FrontmatterValues(data, markdown, day, today);
    ToMapGet(fm, "title", Get(data, "title"));
    ToMapGet(fm, "description", Get(data, "description"));
    ToMapGet(fm, "pubDate", Str(IsoDay(day)));
    ToMapGet(fm, "author", OrElse(Get(data, "author"), Str(DEFAULT_AUTHOR)));
    ToMapGet(fm, "tags", OrElse(Get(data, "tags"), Arr([])));
    ToMapGet(fm, "featured", Bool(false));
    ToMapGet(fm, "draft", Bool(false));
    OptionalObjectFields(data, markdown, day, today);
  }

  lemma OptionalObjectFields(data: Frontmatter, markdown: string, day: CalendarDate, today: CalendarDate)
    requires HeroUsable(data)
    ensures var m := ToMap(NewFrontmatter(data, markdown, day, today));
            var hero := Get(data, "hero_image");
            var caption := Get(data, "hero_caption");
            && Get(m, "updatedDate") == (if Contains(markdown, UPDATE_MARKER) then Str(IsoDay(today)) else Undefined)
            && Get(m, "heroImage") == (if Truthy(hero) then Str(HeroImagePath(YearMonth(day), hero.s)) else Undefined)
            && Get(m, "heroCaption") == (if Truthy(hero) && Truthy(caption) then caption else Undefined)
  {
    FrontmatterKeys(data, markdown, day, today);
    FrontmatterValues(data, markdown, day, today);
    var fm := NewFrontmatter(data, markdown, day, today);
    var hero := Get(data, "hero_image");
    var caption := Get(data, "hero_caption");
    ObjectField(fm, "updatedDate", Contains(markdown, UPDATE_MARKER), Str(IsoDay(today)));
    ObjectField(fm, "heroImage", Truthy(hero), if hero.Str? then Str(HeroImagePath(YearMonth(day), hero.s)) else Undefined);
    ObjectField(fm, "heroCaption", Truthy(hero) && Truthy(caption), caption);
  }

  /** An optional key reads as its value when added, and as `undefined` when not. */
  lemma ObjectField(fm: seq<Field>, key: string, added: bool, v: Value)
    requires Distinct(Keys(fm))
    requires added ==> (key, v) in fm
    requires !added ==> key !in Keys(fm)
    ensures Get(ToMap(fm), key) == if added then v else Undefined
  {
    if added {
      ToMapGet(fm, key, v);
    } else {
      ToMapAbsent(fm, key);
    }
  }

  /** The legacy values the new schema needs to accept the migrated post. */
  predicate LegacyWellTyped(data: Frontmatter)
  {
    var author := Get(data, "author");
    var tags := Get(data, "tags");
    var hero := Get(data, "hero_image");
    var caption := Get(data, "hero_caption");
    && Get(data, "title").Str?
    && Get(data, "description").Str?
    && (!Truthy(author) || author.Str?)
    && (!Truthy(tags) || (tags.Arr? && forall j :: 0 <= j < |tags.items| ==> tags.items[j].Str?))
    && (!Truthy(hero) || !Truthy(caption) || caption.Str?)
  }

  /**
   * A migrated post whose legacy fields are well typed passes the
   * collection schema, provided the written `yyyy-MM-dd` texts read back as
   * valid dates.
   */
  lemma MigratedPassesSchema(postDir: string, sources: map<string, Source>, parse: DateParser, calendar: Calendar, now: Instant)
    requires Migrate(postDir, sources, parse, calendar, now).Success?
    requires LegacyWellTyped(sources[SourcePath(postDir)].data)
    requires parse(Str(IsoDay(calendar(NewDate(Get(sources[SourcePath(postDir)].data, "date"), parse).value)))).Some?
    requires parse(Str(IsoDay(calendar(now)))).Some?
    ensures NormalizeBlog(ToMap(Migrate(postDir, sources, parse, calendar, now).value.frontmatter), parse).Success?
  {
    var src := sources[SourcePath(postDir)];
    var day := calendar(NewDate(Get(src.data, "date"), parse).value);
    var m := ToMap(NewFrontmatter(src.data, src.markdown, day, calendar(now)));
    assert Migrate(postDir, sources, parse, calendar, now).value.frontmatter
           == NewFrontmatter(src.data, src.markdown, day, calendar(now));
    NewFrontmatterAccepted(src.data, src.markdown, day, calendar(now), parse);
    NormalizeBlogAccepts(m, parse);
  }

  /** The frontmatter built from well-typed legacy fields meets every field's requirement. */
  lemma NewFrontmatterAccepted(data: Frontmatter, markdown: string, day: CalendarDate, today: CalendarDate, parse: DateParser)
    requires HeroUsable(data) && LegacyWellTyped(data)
    requires parse(Str(IsoDay(day))).Some? && parse(Str(IsoDay(today))).Some?
    ensures Accepts(ToMap(NewFrontmatter(data, markdown, day, today)), parse)
  {
    FrontmatterObject(data, markdown, day, today);
  }
}
