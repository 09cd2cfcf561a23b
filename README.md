# cleaver-astro content pipeline, modelled in Dafny

This project models the content pipeline of the cleaver-astro blog:

- **Collection schemas.** `blogSchema` and `aboutSchema` are normalisation functions. Each returns zod's issue list or the entry with its defaults applied.
- **Collection loader.** The blog loader's `**/*.md` selection and its `generateId` path-to-id rule.
- **Validator script.** Its own strict schema, the `validateDate` re-checks, the quality warnings, the recursive `walkDir`, and the exit status of `main`.
- **Content migration.** The field mapping, the hero-image path, the `yyyy/MM` target path and the batch loop that aborts on the first failure.
- **Image migration.** The case-insensitive extension filter and the substring hero test. Then the path building, the collect-then-copy batch and the summary counts.
- **`sortPostsByDate`.** An in-place stable sort, newest first.
- **`/sitemap.xml` endpoint.** Draft filtering, `lastmod` choice and entry order. The `<urlset>` template of the Sitemaps XML protocol 0.9 is rendered text for text.

Modules:

- One module per core file: `ValidateContent`, `MigrateContent`, `MigrateImages`, `Collections`, `Sitemap`, `ContentConfig`, `BlogSchema` and `AboutSchema`.
- Shared modules:
  - `JsValues`: JavaScript values, truthiness, `.length`, zod's type names, and `new Date(x)`.
  - `Zod`: the zod checks the schemas use, stated as data.
  - `Text`: `includes`, `replace`, `toLowerCase`, `join`, zero padding.
  - `Paths`: the directory tree, `join`, `extname`, `basename`, `getDirectories`.
  - `Dates`: a calendar date and the two date-fns patterns.
  - `Wrappers`: `Option` and `Result`.

How the model is shaped:

- Code that mutates is imperative Dafny:
  - `validatePost` and `main` of the validator;
  - `processPost` and the `migrateContent` loop;
  - `findImagesInPost`, the collect loop and the copy loop of `migrateImages`;
  - the in-place sort over an `array`.
- Each method is proved equal to a specification function. The lemmas beside that function state what the source promises of it.
- A frontmatter is a `map<string, Value>` in which an absent key reads as `undefined`.
- The file system is a set of parameters: directory listings, a map from path to parsed file, and the set of sources whose copy fails.
- A written file is a returned record.
- The date parser, the local-time calendar, `toISOString` and the clock are parameters.

Two behaviours of the code that the model keeps as written:

- **Unreadable files in the validator.** `validatePost` reads and parses the file with no `try` of its own, and `main` awaits it inside its loop with no handler. An unreadable or unparsable file therefore ends the run at that file, with exit status 1 and no later file checked. `ValidateContent.RunValidation` returns 1 at the first unreadable file.
- **A failing post in the content migration.** `migrateContent` has one `try` around the whole loop over the post directories. The first post that fails ends the loop, so every later post is skipped and "Migration complete!" is not logged. `MigrateContent.MigrateContentBatch` stops there, and reports completion only when every post was written.

## Model

| member | source | states |
|---|---|---|
| JsValues.Utf16Length | src/scripts/validate-content.ts:75-78 | a string's `.length` counts UTF-16 code units: at least its characters, at most twice as many, and equal to them exactly when no character lies outside the Basic Multilingual Plane |
| Zod.TypeIssue | src/scripts/validate-content.ts:10-13 | a single-type check reports nothing exactly when the value has the type; otherwise exactly one issue, at the field's own path |
| Zod.ElementIssues | src/scripts/validate-content.ts:14 | `z.array(z.string())` reports nothing exactly when every element is a string; every issue's path is `[key, index]` |
| Zod.ElementIssuesExactly | src/scripts/validate-content.ts:14 | the issues are exactly one per non-string element, at path `[key, index]` of that element, saying "Required" or expected string, received its type |
| Zod.FieldIssues | src/content/blog/_schema.ts:4-13 | a field reports no issue exactly when it accepts its value (`FieldAccepts`); every issue's path starts with the field's key; scalar kinds report at most one |
| Zod.ObjectAccepts | src/scripts/validate-content.ts:56-57 | `schema.parse` raises no issue exactly when every field of the shape accepts its value |
| Zod.FieldIssuesReported | src/scripts/validate-content.ts:59-62 | each field's issues are among the object's issues |
| Zod.IssueKeys | src/scripts/validate-content.ts:59-62 | every reported issue's path starts with the key of one of the shape's fields |
| Zod.IssueFromOwnField | src/scripts/validate-content.ts:59-62 | with distinct keys, an issue whose path starts with a field's key comes from that field |
| Zod.Strings | src/content/blog/_schema.ts:8 | a checked string array passes through element by element, keeping its length |
| Text.IndexOf | src/scripts/migrate-content.ts:48 | the search finds the first occurrence at or after the start, or reports that there is none |
| Text.ContainsIff | src/scripts/migrate-images.ts:34 | `includes` holds exactly when the pattern occurs at some position |
| Text.ReplaceLeading | src/scripts/migrate-content.ts:54 | `replace('./', '')` on `./<rest>` gives `<rest>` |
| Text.ToLower | src/scripts/migrate-images.ts:32 | lower-casing keeps the length, leaves no upper-case letter, changes exactly the upper-case letters and maps each to its lower-case partner |
| Text.ToLowerIdempotent | src/scripts/migrate-images.ts:32 | lower-casing twice is lower-casing once |
| Text.ZeroPad | src/scripts/migrate-content.ts:55 | the rendering is all digits and at least as wide as the pattern asks |
| Text.ZeroPadValue | src/scripts/migrate-content.ts:68 | the padded digits read back to the number |
| Text.ZeroPadLength | src/scripts/migrate-content.ts:90 | a number below 10^w is rendered in exactly w digits |
| Dates.YearMonthRoundTrip | src/scripts/migrate-content.ts:90 | for era years of at most four digits, `yyyy/MM` is seven characters with `/` at index 4 and reads back to the era year and month |
| Dates.IsoDayRoundTrip | src/scripts/migrate-content.ts:68 | for era years of at most four digits, `yyyy-MM-dd` is ten characters with dashes at 4 and 7 and reads back to the era year, month and day |
| Dates.YearMonthInjective | src/scripts/migrate-content.ts:90-91 | for every year, two posts share a month folder exactly when they share era year and month (years 0 and 1 share `0001`) |
| Dates.BucketAgreesWithDay | src/scripts/migrate-content.ts:68-90 | the folder and the written `pubDate` carry the same year and month digits |
| Paths.Directories | src/scripts/migrate-content.ts:22-25 | `getDirectories` keeps exactly the names of directory entries, never more than the listing |
| Paths.DirectoriesAppend | src/scripts/migrate-content.ts:22-25 | `getDirectories` keeps listing order: the names from a concatenated listing are the names from each part, in turn |
| Paths.DirectoriesOne | src/scripts/migrate-content.ts:24 | a single entry gives its name exactly when it is a directory, so each directory appears once per listing entry |
| Paths.ExtName | src/scripts/migrate-images.ts:32 | `extname` is a suffix of the name that is empty or starts with its only `.`, and is never the whole name |
| Paths.BaseName | src/content/config.ts:11 | `basename` is the suffix after the last `/` |
| Paths.BaseNameOfJoin | src/content/config.ts:11 | the base name of `dir/n` is `n` whatever `dir` is |
| Paths.ExtNameOf | src/scripts/migrate-images.ts:32 | the extension of `<a>.<b>` is `.<b>`, or nothing for a dot-file |
| ContentConfig.FileStem | src/content/config.ts:11 | the stem is the base name with its extension cut off, has no `/`, and is non-empty for a non-empty base name |
| ContentConfig.GlobIds | src/content/config.ts:7-9 | every loaded path is a visible `.md` file whose stem is its name without `.md` |
| ContentConfig.SameNameSameId | src/content/config.ts:10-13 | two entries with the same file name in different folders get the same id |
| ContentConfig.IdOfMarkdownFile | src/content/config.ts:10-13 | a post stored as `<dir>/<stem>.md` gets the id `/blog/<stem>` |
| BlogSchema.NormalizeBlog | src/content/blog/_schema.ts:3-14 | parsing fails exactly with zod's non-empty issue list |
| BlogSchema.NormalizeBlogAccepts | src/content/blog/_schema.ts:3-14 | the schema accepts exactly the data described field by field by `Accepts` |
| BlogSchema.RequiredStrings | src/content/blog/_schema.ts:4-5 | a missing or non-string title or description is rejected with "Required" or expected/received at that field |
| BlogSchema.PubDateCoerced | src/content/blog/_schema.ts:6 | a missing `pubDate` is an invalid date; an accepted one is `new Date(pubDate)`; a `null` one is the epoch |
| BlogSchema.UpdatedDateOptional | src/content/blog/_schema.ts:11 | an absent `updatedDate` stays absent; a present one is coerced like `pubDate` |
| BlogSchema.DefaultsOnlyWhenAbsent | src/content/blog/_schema.ts:7-13 | absent `author`, `tags`, `featured` and `draft` become `'Cleaver Barnes'`, `[]`, false and false; supplied values pass through unchanged |
| BlogSchema.HeroCaptionIndependent | src/content/blog/_schema.ts:9-10 | both hero fields pass through as given, and either one is accepted without the other |
| BlogSchema.DropOptional | src/content/blog/_schema.ts:9-10 | removing an optional hero field from accepted data leaves it accepted |
| AboutSchema.NormalizeAbout | src/content/about/_schema.ts:3-9 | parsing fails exactly with zod's non-empty issue list |
| AboutSchema.NormalizeAboutFields | src/content/about/_schema.ts:3-9 | accepted iff title and description are strings, `lastUpdated` is a date, `sections` is an array of strings and `showInNav` is absent or boolean; the fields pass through, and an absent `showInNav` becomes true |
| AboutSchema.LastUpdatedNotCoerced | src/content/about/_schema.ts:6 | a `lastUpdated` written as a string is rejected with "Expected date, received string" |
| Collections.InsertPermutes | src/utils/collections.ts:4-7 | inserting one post adds exactly that post |
| Collections.InsertDescending | src/utils/collections.ts:4-7 | inserting into a newest-first list keeps it newest first |
| Collections.InsertKeepsTies | src/utils/collections.ts:4-7 | an inserted post goes after every post of its own date |
| Collections.SortDescending | src/utils/collections.ts:4-7 | the sorted order is non-increasing by `pubDate` |
| Collections.SortPermutes | src/utils/collections.ts:4 | sorting is a permutation of the input |
| Collections.SortStable | src/utils/collections.ts:4-7 | posts with equal `pubDate` keep their input relative order |
| Collections.InsertInto | src/utils/collections.ts:4-7 | one in-place step moves the next post left past every strictly older post of the sorted prefix, which is `Insert` on the sequence |
| Collections.SortPostsByDate | src/utils/collections.ts:3-8 | sorts the caller's array in place into the stable newest-first order, and returns that same array |
| Sitemap.LastMod | src/pages/sitemap.xml.ts:14 | `lastmod` is the value of `updatedDate \|\| pubDate` over the entry's dates |
| Sitemap.Published | src/pages/sitemap.xml.ts:12 | the filter keeps exactly the non-draft posts |
| Sitemap.PublishedCount | src/pages/sitemap.xml.ts:11-13 | each non-draft post is kept as many times as the collection holds it, and every draft is dropped, so there is one post `<url>` per non-draft post |
| Sitemap.PublishedAppend | src/pages/sitemap.xml.ts:11-13 | the filter keeps the collection's order: filtering a concatenation concatenates the filtered parts |
| Sitemap.PublishedOne | src/pages/sitemap.xml.ts:12 | a single post is kept exactly when it is not a draft |
| Sitemap.Get | src/pages/sitemap.xml.ts:7-57 | sorts the collection in place and answers the sitemap of the sorted posts as `application/xml` |
| Sitemap.UrlsLayout | src/pages/sitemap.xml.ts:11-50 | the URLs the document is rendered from are the home page first, then each published post in sorted order, then `/about-me` and `/tags` |
| Sitemap.UrlsOnSite | src/pages/sitemap.xml.ts:16-50 | every listed URL starts with the site URL and appears as a `<loc>` element of the rendered document |
| Sitemap.UrlListed | src/pages/sitemap.xml.ts:40-50 | each URL of the home page, the post list and the custom pages has its `<loc>` in the `<urlset>` document |
| Sitemap.PartListed | src/pages/sitemap.xml.ts:22 | an element of a joined list keeps its `<loc>` wherever the list is placed in the document |
| Sitemap.DraftsExcluded | src/pages/sitemap.xml.ts:12 | a post has a URL exactly when it is in the collection and not a draft |
| Sitemap.PublishedDescending | src/pages/sitemap.xml.ts:9-12 | filtering drafts keeps the newest-first order |
| Sitemap.PostsNewestFirst | src/pages/sitemap.xml.ts:9-12 | the post URLs are newest `pubDate` first |
| Sitemap.RenderAllContains | src/pages/sitemap.xml.ts:22 | each rendered element occurs in the joined text |
| Sitemap.PublishedPostListed | src/pages/sitemap.xml.ts:11-48 | every published post's `<loc>` with `siteURL + post.id` appears in the body |
| MigrateContent.ProcessPost | src/scripts/migrate-content.ts:27-101 | building `newPost` and then adding the optional keys one by one gives what `Migrate` specifies |
| MigrateContent.MigrateOutcome | src/scripts/migrate-content.ts:27-90 | a post fails exactly when its file is unreadable, its truthy `hero_image` is not a string, or its `date` is invalid, in that order of precedence |
| MigrateContent.FrontmatterKeys | src/scripts/migrate-content.ts:64-84 | the keys are the seven fixed ones, then `updatedDate` iff the body has `### Update`, `heroImage` iff `hero_image` is truthy, and `heroCaption` iff both hero fields are truthy; no key repeats |
| MigrateContent.FrontmatterValues | src/scripts/migrate-content.ts:37-84 | title and description pass through; `pubDate` is `yyyy-MM-dd`; author and tags fall back when falsy; featured and draft are false; `updatedDate` is today; `heroImage` is the month's hero path |
| MigrateContent.FrontmatterObject | src/scripts/migrate-content.ts:64-84 | read as an object, every key of the new frontmatter has that value, and an optional key not added is `undefined` |
| MigrateContent.HeroImageOfRelativeFile | src/scripts/migrate-content.ts:53-57 | a `hero_image` of `./<file>` becomes `/images/<yyyy/MM>/hero-images/<file>` |
| MigrateContent.TargetFollowsPubDate | src/scripts/migrate-content.ts:68-98 | `pubDate` is the third key; the output path is `NEW_CONTENT_DIR/yyyy/MM/<postDir>.md` with the digits of that `pubDate`; the body is unchanged |
| MigrateContent.TargetOfDay | src/scripts/migrate-content.ts:90-92 | the month folder of the target path matches the written `pubDate` |
| MigrateContent.OnlyUpdatedDateReadsClock | src/scripts/migrate-content.ts:47-50 | runs at different times differ at most in `updatedDate`'s value, and not at all without an update section |
| MigrateContent.MigratedPostId | src/scripts/migrate-content.ts:90-92 | the loader gives the migrated file the id `/blog/<postDir>` |
| MigrateContent.NewFrontmatterAccepted | src/scripts/migrate-content.ts:64-84 | frontmatter built from well-typed legacy fields meets every requirement of the collection schema |
| MigrateContent.MigratedPassesSchema | src/scripts/migrate-content.ts:64-87 | a migrated post with well-typed legacy fields passes `blogSchema` |
| MigrateContent.ProcessAll | src/scripts/migrate-content.ts:109-111 | the loop writes `Written`, and reports completion exactly when every directory was written |
| MigrateContent.MigrateContentBatch | src/scripts/migrate-content.ts:103-117 | only directory entries, in listing order, up to the first failure; nothing for an unreadable listing; "complete" iff all were written |
| MigrateContent.WrittenStopsAtFailure | src/scripts/migrate-content.ts:103-117 | the batch writes a prefix of the directories, each as migrated on its own, and stops exactly at the first failing one |
| MigrateContent.WrittenByStops | src/scripts/migrate-content.ts:109-111 | the same for any per-post migration |
| MigrateImages.HeroIncludes | src/scripts/migrate-images.ts:34 | `hero_image?.includes` throws exactly when `hero_image` is neither absent, null, a string nor an array |
| MigrateImages.FindImagesInPost | src/scripts/migrate-images.ts:20-46 | the listing is read, then the date, then one record is pushed per image file, as `FindImages` specifies |
| MigrateImages.ImageFiles | src/scripts/migrate-images.ts:31-33 | keeps exactly the directory entries with an image extension |
| MigrateImages.ImageFilesAppend | src/scripts/migrate-images.ts:31-33 | the image filter keeps listing order: filtering a concatenated listing concatenates the filtered parts |
| MigrateImages.ImageFilesOne | src/scripts/migrate-images.ts:32-33 | a single entry is kept exactly when it has an image extension |
| MigrateImages.ImageFilesCount | src/scripts/migrate-images.ts:31-33 | each image file is kept as many times as the listing holds it, and every other entry is dropped |
| MigrateImages.ImagesInSpec | src/scripts/migrate-images.ts:31-43 | the scan gives one record per image file in listing order, classified by `hero_image`, and fails exactly when there is an image and `hero_image` cannot be searched |
| MigrateImages.InfoPaths | src/scripts/migrate-images.ts:35-41 | the source is `OLD_CONTENT_DIR/<postDir>/<file>`; the target is `NEW_IMAGES_DIR/<yyyy/MM>/<folder>/<file>` with folder `hero-images` or `content-images`; both keep the file name |
| MigrateImages.ImageByExtension | src/scripts/migrate-images.ts:32-33 | `<stem>.<ext>` is collected exactly when `.<ext>`, lower-cased, is `.jpg`, `.jpeg` or `.png` |
| MigrateImages.DotFileSkipped | src/scripts/migrate-images.ts:32-33 | a dot-file such as `.png` has no extension and is never collected |
| MigrateImages.UpperCaseImage | src/scripts/migrate-images.ts:32-33 | the test ignores case: `cover.JPG` is collected |
| MigrateImages.SuffixClassifiedHero | src/scripts/migrate-images.ts:34 | the hero test is a substring test: every file whose name ends the `hero_image` string is a hero image |
| MigrateImages.HeroFileClassified | src/scripts/migrate-images.ts:34-41 | with `hero_image` `./<file>`, `<file>` is recorded as a hero image |
| MigrateImages.HeroTargetPath | src/scripts/migrate-images.ts:35-39 | the hero target of `<file>` is `src` followed by the `heroImage` path content migration writes for `./<file>` |
| MigrateImages.HeroTargetMatchesContent | src/scripts/migrate-images.ts:28-41 | for a post whose `hero_image` is `./<file>` and whose date parses, the content migration writes a `heroImage` string, and the scan records `<file>` as a hero image copied to `src` followed by that `heroImage` |
| MigrateImages.CollectImages | src/scripts/migrate-images.ts:55-58 | `allImages` is the per-post lists concatenated in directory order, or the first failure |
| MigrateImages.CopyImages | src/scripts/migrate-images.ts:61-66 | copies in order up to the first failing copy |
| MigrateImages.CopyStopsAtFailure | src/scripts/migrate-images.ts:61-66 | what is copied is a prefix of the images, none of them failing, ending just before the first failure |
| MigrateImages.SummaryAddsUp | src/scripts/migrate-images.ts:68-71 | hero count plus content count equals the total; each image is counted on the side its flag says |
| MigrateImages.MigrateImagesBatch | src/scripts/migrate-images.ts:48-75 | every post is scanned before any copy; a failing scan copies nothing; the summary is printed iff every copy succeeded |
| ValidateContent.WalkIsMarkdownListing | src/scripts/validate-content.ts:28-38 | `walkDir` yields exactly the non-directory entries named `*.md`, depth first in listing order, entering every subdirectory |
| ValidateContent.WalkYieldsMarkdown | src/scripts/validate-content.ts:34-35 | every yielded path ends in `.md` |
| ValidateContent.PushErrorLines | src/scripts/validate-content.ts:59-63 | the `catch` block appends exactly those lines to the error list |
| ValidateContent.ValidatePost | src/scripts/validate-content.ts:46-89 | pushing errors then warnings in place yields `Report`: schema errors, then date errors, then warnings |
| ValidateContent.RequiredStringIssues | src/scripts/validate-content.ts:9-13 | title, description, pubDate and author (no default here) have no issue iff they are strings; otherwise "Required" or expected/received at that key |
| ValidateContent.RequiredStringErrors | src/scripts/validate-content.ts:56-64 | such a field is printed as "Missing or invalid <key>: Required" or "...: Expected string, received <type>" |
| ValidateContent.PubDateErrors | src/scripts/validate-content.ts:40-69 | "Invalid pubDate format" is reported iff `pubDate` is falsy or does not parse |
| ValidateContent.MissingPubDateReportedTwice | src/scripts/validate-content.ts:56-69 | an absent `pubDate` is a schema error and also "Invalid pubDate format", right after the schema errors |
| ValidateContent.UpdatedDateErrors | src/scripts/validate-content.ts:70-72 | "Invalid updatedDate format" is reported iff `updatedDate` is truthy and does not parse |
| ValidateContent.DescriptionWarnings | src/scripts/validate-content.ts:75-80 | too short iff absent or under 50 in `.length`; too long iff over 160; never both; 50 to 160 UTF-16 code units gives neither |
| ValidateContent.HeroAndTagsWarnings | src/scripts/validate-content.ts:81-86 | the caption warning fires iff `heroImage` is truthy and `heroCaption` falsy; the tags warning fires iff tags are absent or empty |
| ValidateContent.WarningsOrdered | src/scripts/validate-content.ts:74-86 | warnings come in the order short, long, hero, tags, each at most once |
| ValidateContent.ReportIffIssues | src/scripts/validate-content.ts:88 | a report is returned iff there is an error or a warning, and it carries all of them |
| ValidateContent.AnyFailsIff | src/scripts/validate-content.ts:95-98 | the running `hasErrors` flag is set exactly when some file fails |
| ValidateContent.RunValidation | src/scripts/validate-content.ts:91-118 | the exit code is 1 exactly when some walked file is unreadable or has an error report |
| ValidateContent.AnyFailsExtend | src/scripts/validate-content.ts:98 | once a file fails, the run fails: the flag never goes back to false |
| ValidateContent.ExitCodeZeroIff | src/scripts/validate-content.ts:111-117 | exit 0 exactly when every walked file is readable and error-free; warnings alone do not fail the run |

## Left out

**External systems**

- File-system I/O (`readdir`, `readFile`, `writeFile`, `mkdir`, `copyFile`):
  - Directory listings are a tree or a per-directory sequence, and a readable file is an entry of a map.
  - A write is a returned `MigratedPost`.
  - A copy or `mkdir` failure is membership of its source in the `failing` set.
  - Write failures in the content migration are not modelled.
- gray-matter and YAML:
  - Parsing gives the frontmatter map and the opaque Markdown body; a file that fails to parse is absent from the map.
  - `matter.stringify` is left out. `MigrateContent.MigratedPassesSchema` reads the written frontmatter back as an object, assuming YAML preserves its values.
- Date parsing:
  - `new Date(string)` is an abstract parser.
  - The time zone that date-fns `format` uses is an abstract calendar from an instant to `(year, month, day)`.
  - `toISOString` is an abstract rendering.
  - The clock is one `now` parameter. It stands for every `new Date()` reading of one run.
  - JavaScript time values are integers; there is no `NaN` other than "invalid date".
- Console output is not modelled; `process.exit` is the returned exit code. The order of awaited operations is kept; the async/await machinery is not modelled.
- An unreadable directory in the validator's walk, the root or any subdirectory, is not modelled: the tree is an input. In the code, `readdir` rejects there, nothing handles the rejection, and the run ends with exit status 1 at that point.
- The engine's sort algorithm is not modelled. Any stable sort gives the same order as the insertion sort modelled here.

**Simplifications in the model**

- `toLowerCase` is modelled for ASCII letters only.
- `path.join` is plain concatenation with `/`; it does not normalise `.`, `..` or repeated separators.
- The glob's handling of hidden entries is modelled as "a name starting with `.` is skipped". Other glob options of the loader are not modelled.
- `MigrateImages.HeroIncludes`: for an absent or `null` `hero_image` the source stores `isHero: undefined`. The model stores `false`, which the source treats the same everywhere.
- Years are written by date-fns `yyyy` as era years: year 0 (1 BC) is `0001`, year -1 is `0002`. The calendar's year is an integer and the model writes its era year.

**Weaker contracts**

- MigrateContent.TargetFollowsPubDate: stated only for dates whose era year has at most four digits. date-fns writes more digits for later years, and the digit positions used in the contract no longer apply.
- MigrateContent.TargetOfDay: stated only for era years of at most four digits, for the same reason.
- MigrateContent.MigrateOutcome: does not count the YAML dump among the failures. `newFrontmatter` copies `title` and `description` even when they are `undefined`. `matter.stringify` dumps with js-yaml's safe dumper, which throws on an `undefined` value. So a legacy post without a title or description fails at the write and ends the batch. `matter.stringify` is left out of the model, and `Migrate` counts such a post as migrated; `MigrateContentBatch` and `WrittenStopsAtFailure` then go on past it.
- Dates.YearMonthRoundTrip: stated only for era years of at most four digits, for the same reason.
- Dates.IsoDayRoundTrip: stated only for era years of at most four digits, for the same reason.
- Dates.BucketAgreesWithDay: stated only for era years of at most four digits, for the same reason.
- Sitemap.UrlsOnSite: proves that every listed URL appears as a `<loc>` of the document. It does not prove that the document holds no other `<loc>` element.

**Files not modelled**

- src/pages/rss.xml.ts and astro.config.mjs: they are build configuration and a wrapper over a library, and are not part of this model.
