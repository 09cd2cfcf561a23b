/**
 * The content validator script: its own strict frontmatter schema, the
 * date re-checks, the quality warnings, the recursive Markdown walk, and the
 * exit status of a run over the posts directory.
 */
module ValidateContent {
  import opened Wrappers
  import opened JsValues
  import opened Text
  import opened Paths
  import opened Zod

  const BLOG_DIR: string := "src/content/blog/posts"

  const INVALID_PUBDATE: string := "Invalid pubDate format"
  const INVALID_UPDATED: string := "Invalid updatedDate format"
  const TOO_SHORT: string := "Description is too short (should be 50+ characters)"
  const TOO_LONG: string := "Description is too long (should be under 160 characters for SEO)"
  const HERO_WITHOUT_CAPTION: string := "Hero image present but missing caption"
  const NO_TAGS: string := "No tags specified"

  /** The report for one file; a clean file has none. */
  datatype ValidationIssue = ValidationIssue(file: string, errors: seq<string>, warnings: seq<string>)

  // ---------------------------------------------------------------------------
  // walkDir

  /** `walkDir(dir)`: depth-first, in listing order, the `.md` files below `dir`. */
  function Walk(dir: string, entries: seq<Node>): seq<string>
    decreases entries
  {
    if entries == [] then []
    else
      var here :=
        match entries[0]
        case Dir(name, children) => Walk(PathJoin(dir, name), children)
        case File(name) => if EndsWith(name, ".md") then [PathJoin(dir, name)] else [];
      here + Walk(dir, entries[1..])
  }

  /** Every entry below `dir` with its path, in pre-order (directories before their contents). */
  function Listing(dir: string, entries: seq<Node>): seq<(string, Node)>
    decreases entries
  {
    if entries == [] then []
    else
      var path := PathJoin(dir, entries[0].name);
      [(path, entries[0])]
      + (if entries[0].Dir? then Listing(path, entries[0].children) else [])
      + Listing(dir, entries[1..])
  }

  predicate IsMarkdownFile(n: Node)
  {
    n.File? && EndsWith(n.name, ".md")
  }

  /** The paths of the Markdown files of a listing, in order. */
  function MarkdownPaths(listing: seq<(string, Node)>): seq<string>
  {
    if listing == [] then []
    else (if IsMarkdownFile(listing[0].1) then [listing[0].0] else []) + MarkdownPaths(listing[1..])
  }

  lemma {:induction false} MarkdownPathsAppend(a: seq<(string, Node)>, b: seq<(string, Node)>)
    ensures MarkdownPaths(a + b) == MarkdownPaths(a) + MarkdownPaths(b)
  {
    if a != [] {
      var head := if IsMarkdownFile(a[0].1) then [a[0].0] else [];
      assert (a + b)[0] == a[0];
      assert (a + b)[1..] == a[1..] + b;
      MarkdownPathsAppend(a[1..], b);
      assert MarkdownPaths(a) == head + MarkdownPaths(a[1..]);
      calc {
        MarkdownPaths(a + b);
        head + MarkdownPaths(a[1..] + b);
        head + (MarkdownPaths(a[1..]) + MarkdownPaths(b));
        (head + MarkdownPaths(a[1..])) + MarkdownPaths(b);
      }
    } else {
      assert a + b == b;
    }
  }

  /**
   * The walk yields exactly the paths of the non-directory entries whose
   * names end in `.md`, in the pre-order of the tree: directories are never
   * yielded and every subdirectory is entered.
   */
  lemma {:induction false} WalkIsMarkdownListing(dir: string, entries: seq<Node>)
    ensures Walk(dir, entries) == MarkdownPaths(Listing(dir, entries))
    decreases entries
  {
    if entries != [] {
      var e := entries[0];
      var path := PathJoin(dir, e.name);
      var sub := if e.Dir? then Listing(path, e.children) else [];
      MarkdownPathsOfEntry(path, e, sub, Listing(dir, entries[1..]));
      WalkIsMarkdownListing(dir, entries[1..]);
      if e.Dir? {
        WalkIsMarkdownListing(path, e.children);
      } else {
        assert MarkdownPaths(sub) == [];
      }
    }
  }

  /** The Markdown paths of one entry followed by its subtree and the rest of the listing. */
  lemma MarkdownPathsOfEntry(path: string, n: Node, sub: seq<(string, Node)>, rest: seq<(string, Node)>)
    ensures MarkdownPaths([(path, n)] + sub + rest)
            == (if IsMarkdownFile(n) then [path] else []) + MarkdownPaths(sub) + MarkdownPaths(rest)
  {
    var l := [(path, n)] + (sub + rest);
    assert [(path, n)] + sub + rest == l;
    assert l[0] == (path, n) && l[1..] == sub + rest;
    MarkdownPathsAppend(sub, rest);
  }

  /** Every yielded path ends in `.md`. */
  lemma {:induction false} WalkYieldsMarkdown(dir: string, entries: seq<Node>)
    ensures forall p :: p in Walk(dir, entries) ==> EndsWith(p, ".md")
    decreases entries
  {
    if entries != [] {
      if entries[0].Dir? {
        WalkYieldsMarkdown(PathJoin(dir, entries[0].name), entries[0].children);
      } else {
        var p := PathJoin(dir, entries[0].name);
        if EndsWith(entries[0].name, ".md") {
          assert p[|p| - 3..] == entries[0].name[|entries[0].name| - 3..];
        }
      }
      WalkYieldsMarkdown(dir, entries[1..]);
    }
  }

  // ---------------------------------------------------------------------------
  // validatePost

  /**
   * The script's own schema: the same keys as the collection schema, but
   * every date a plain string and `author` required.
   */
  const VALIDATE_SHAPE: Shape := [
    FieldSpec("title", StringKind, Mandatory),
    FieldSpec("description", StringKind, Mandatory),
    FieldSpec("pubDate", StringKind, Mandatory),
    FieldSpec("author", StringKind, Mandatory),
    FieldSpec("tags", StringArrayKind, HasDefault),
    FieldSpec("heroImage", StringKind, Optional),
    FieldSpec("heroCaption", StringKind, Optional),
    FieldSpec("updatedDate", StringKind, Optional),
    FieldSpec("featured", BooleanKind, HasDefault),
    FieldSpec("draft", BooleanKind, HasDefault)
  ]

  /** The issues of `blogSchema.parse(data)`; no check of this schema reads a date parser. */
  function SchemaIssues(data: Frontmatter): seq<Issue>
  {
    ObjectIssues(VALIDATE_SHAPE, data, NoDates)
  }

  function NoDates(v: Value): Option<Instant>
  {
    None
  }

  lemma ValidateKeysDistinct()
    ensures DistinctKeys(VALIDATE_SHAPE)
  {
  }

  /** The error line for one zod issue. */
  function ErrorText(i: Issue): string
  {
    "Missing or invalid " + Join(i.path, ".") + ": " + Message(i.reason)
  }

  /** One error line per issue, in order. */
  function ErrorLines(issues: seq<Issue>): (r: seq<string>)
    ensures |r| == |issues|
    ensures forall k :: 0 <= k < |issues| ==> r[k] == ErrorText(issues[k])
  {
    seq(|issues|, k requires 0 <= k < |issues| => ErrorText(issues[k]))
  }

  lemma ErrorLinesAppend(a: seq<Issue>, b: seq<Issue>)
    ensures ErrorLines(a + b) == ErrorLines(a) + ErrorLines(b)
  {
  }

  function SchemaErrors(data: Frontmatter): seq<string>
  {
    ErrorLines(SchemaIssues(data))
  }

  /** `validateDate`: false for a falsy value, else whether `new Date(v)` is valid. */
  predicate ValidDate(v: Value, parse: DateParser)
  {
    Truthy(v) && NewDate(v, parse).Some?
  }

  predicate BadPubDate(data: Frontmatter, parse: DateParser)
  {
    !ValidDate(Get(data, "pubDate"), parse)
  }

  predicate BadUpdatedDate(data: Frontmatter, parse: DateParser)
  {
    Truthy(Get(data, "updatedDate")) && !ValidDate(Get(data, "updatedDate"), parse)
  }

  function DateErrors(data: Frontmatter, parse: DateParser): seq<string>
  {
    (if BadPubDate(data, parse) then [INVALID_PUBDATE] else [])
    + (if BadUpdatedDate(data, parse) then [INVALID_UPDATED] else [])
  }

  function Errors(data: Frontmatter, parse: DateParser): seq<string>
  {
    SchemaErrors(data) + DateErrors(data, parse)
  }

  predicate TooShort(data: Frontmatter)
  {
    var d := Get(data, "description");
    !Truthy(d) || (Length(d).Some? && Length(d).value < 50)
  }

  predicate TooLong(data: Frontmatter)
  {
    var d := Get(data, "description");
    Truthy(d) && Length(d).Some? && Length(d).value > 160
  }

  predicate HeroWithoutCaption(data: Frontmatter)
  {
    Truthy(Get(data, "heroImage")) && !Truthy(Get(data, "heroCaption"))
  }

  predicate NoTags(data: Frontmatter)
  {
    var t := Get(data, "tags");
    !Truthy(t) || Length(t) == Some(0)
  }

  function Warnings(data: Frontmatter): seq<string>
  {
    (if TooShort(data) then [TOO_SHORT] else [])
    + (if TooLong(data) then [TOO_LONG] else [])
    + (if HeroWithoutCaption(data) then [HERO_WITHOUT_CAPTION] else [])
    + (if NoTags(data) then [NO_TAGS] else [])
  }

  /** What `validatePost` returns for a file whose frontmatter is `data`. */
  function Report(file: string, data: Frontmatter, parse: DateParser): Option<ValidationIssue>
  {
    var errors := Errors(data, parse);
    var warnings := Warnings(data);
    if |errors| > 0 || |warnings| > 0 then Some(ValidationIssue(file, errors, warnings)) else None
  }

  /** The `catch` block: one error line pushed per zod issue, in order. */
  method PushErrorLines(errors: seq<string>, issues: seq<Issue>) returns (r: seq<string>)
    ensures r == errors + ErrorLines(issues)
  {
    r := errors;
    for k := 0 to |issues|
      invariant r == errors + ErrorLines(issues[..k])
    {
      assert issues[..k + 1] == issues[..k] + [issues[k]];
      ErrorLinesAppend(issues[..k], [issues[k]]);
      r := r + [ErrorText(issues[k])];
    }
    assert issues[..|issues|] == issues;
  }

  /** `validatePost`, pushing into the error and warning lists as the script does. */
  method ValidatePost(file: string, data: Frontmatter, parse: DateParser) returns (r: Option<ValidationIssue>)
    ensures r == Report(file, data, parse)
  {
    var errors: seq<string> := [];
    var warnings: seq<string> := [];

    errors := PushErrorLines(errors, SchemaIssues(data));

    assert errors == SchemaErrors(data);
    ghost var schemaErrors := errors;
    if BadPubDate(data, parse) {
      errors := errors + [INVALID_PUBDATE];
    }
    if BadUpdatedDate(data, parse) {
      errors := errors + [INVALID_UPDATED];
    }
    assert errors == schemaErrors + DateErrors(data, parse);
    assert errors == Errors(data, parse);

    ghost var short := if TooShort(data) then [TOO_SHORT] else [];
    ghost var long := if TooLong(data) then [TOO_LONG] else [];
    ghost var hero := if HeroWithoutCaption(data) then [HERO_WITHOUT_CAPTION] else [];
    if TooShort(data) {
      warnings := warnings + [TOO_SHORT];
    }
    assert warnings == short;
    if TooLong(data) {
      warnings := warnings + [TOO_LONG];
    }
    assert warnings == short + long;
    if HeroWithoutCaption(data) {
      warnings := warnings + [HERO_WITHOUT_CAPTION];
    }
    assert warnings == short + long + hero;
    if NoTags(data) {
      warnings := warnings + [NO_TAGS];
    }
    assert warnings == Warnings(data);
    r := if |errors| > 0 || |warnings| > 0 then Some(ValidationIssue(file, errors, warnings)) else None;
  }

  // ---------------------------------------------------------------------------
  // Properties of a report

  lemma SchemaErrorsStartWithM(data: Frontmatter)
    ensures forall e :: e in SchemaErrors(data) ==> |e| > 0 && e[0] == 'M'
  {
    var lines := SchemaErrors(data);
    forall e | e in lines ensures |e| > 0 && e[0] == 'M' {
      var k :| 0 <= k < |lines| && lines[k] == e;
    }
  }

  /** A line not starting with 'M' is an error exactly when it is a date error. */
  lemma DateErrorLine(data: Frontmatter, parse: DateParser, line: string)
    requires |line| > 0 && line[0] != 'M'
    ensures line in Errors(data, parse) <==> line in DateErrors(data, parse)
  {
    SchemaErrorsStartWithM(data);
  }

  /** The error line of an issue at a top-level key. */
  lemma TopLevelErrorText(key: string, reason: Reason)
    ensures ErrorText(Issue([key], reason)) == "Missing or invalid " + key + ": " + Message(reason)
  {
    assert Join([key], ".") == key;
  }

  /** The key of a required string field, its position in the schema. */
  function RequiredIndex(key: string): nat
  {
    if key == "title" then 0 else if key == "description" then 1 else if key == "pubDate" then 2 else 3
  }

  /**
   * A title, description, pubDate or author that is missing or not a string
   * gives exactly one issue at that field, with zod's reason; a string one none.
   */
  lemma {:induction false} RequiredStringIssues(data: Frontmatter, key: string)
    requires key == "title" || key == "description" || key == "pubDate" || key == "author"
    ensures Get(data, key).Str? <==> forall i :: i in SchemaIssues(data) ==> i.path != [key]
    ensures !Get(data, key).Str? ==>
              Issue([key], if Get(data, key).Undefined? then Required else Expected("string", TypeName(Get(data, key))))
              in SchemaIssues(data)
  {
    var v := Get(data, key);
    var j := RequiredIndex(key);
    assert VALIDATE_SHAPE[j] == FieldSpec(key, StringKind, Mandatory);
    var own := FieldIssues(VALIDATE_SHAPE[j], v, NoDates);
    var issues := SchemaIssues(data);
    FieldIssuesReported(VALIDATE_SHAPE, data, NoDates, j);
    if v.Str? {
      assert own == [];
      forall i | i in issues ensures i.path != [key] {
        if i.path == [key] {
          ValidateKeysDistinct();
          IssueFromOwnField(VALIDATE_SHAPE, data, NoDates, j, i);
        }
      }
    } else {
      var reason := if v.Undefined? then Required else Expected("string", TypeName(v));
      assert own == [Issue([key], reason)];
    }
  }

  /** ... and the script prints it as "Missing or invalid <key>: <message>". */
  lemma {:induction false} RequiredStringErrors(data: Frontmatter, key: string)
    requires key == "title" || key == "description" || key == "pubDate" || key == "author"
    ensures !Get(data, key).Str? ==>
              "Missing or invalid " + key + ": "
              + (if Get(data, key).Undefined? then "Required" else "Expected string, received " + TypeName(Get(data, key)))
              in SchemaErrors(data)
  {
    var v := Get(data, key);
    RequiredStringIssues(data, key);
    if !v.Str? {
      var reason := if v.Undefined? then Required else Expected("string", TypeName(v));
      var text := if v.Undefined? then "Required" else "Expected string, received " + TypeName(v);
      assert Message(reason) == text by {
        assert "Expected " + "string" + ", received " == "Expected string, received ";
      }
      ReportedIssueText(data, key, reason);
    }
  }

  /** A reported top-level issue appears among the printed errors. */
  lemma ReportedIssueText(data: Frontmatter, key: string, reason: Reason)
    requires Issue([key], reason) in SchemaIssues(data)
    ensures "Missing or invalid " + key + ": " + Message(reason) in SchemaErrors(data)
  {
    var issues := SchemaIssues(data);
    var k :| 0 <= k < |issues| && issues[k] == Issue([key], reason);
    TopLevelErrorText(key, reason);
    assert SchemaErrors(data)[k] == "Missing or invalid " + key + ": " + Message(reason);
  }

  lemma DateErrorsFollowSchema(schema: seq<string>, dates: seq<string>)
    requires dates != []
    ensures (schema + dates)[|schema|] == dates[0]
  {
  }

  /** A falsy or unparsable `pubDate` adds "Invalid pubDate format", and nothing else does. */
  lemma {:induction false} PubDateErrors(data: Frontmatter, parse: DateParser)
    ensures INVALID_PUBDATE in Errors(data, parse) <==> !ValidDate(Get(data, "pubDate"), parse)
    ensures !Truthy(Get(data, "pubDate")) ==> INVALID_PUBDATE in Errors(data, parse)
  {
    DateErrorLine(data, parse, INVALID_PUBDATE);
    assert INVALID_PUBDATE != INVALID_UPDATED by {
      assert INVALID_PUBDATE[8] != INVALID_UPDATED[8];
    }
  }

  /**
   * An absent `pubDate` is reported twice: by the schema as required, and
   * right after the schema errors as an invalid date.
   */
  lemma {:induction false} MissingPubDateReportedTwice(data: Frontmatter, parse: DateParser)
    requires Get(data, "pubDate").Undefined?
    ensures Errors(data, parse)[|SchemaErrors(data)|] == INVALID_PUBDATE
    ensures "Missing or invalid " + "pubDate" + ": " + Message(Required) in SchemaErrors(data)
  {
    assert DateErrors(data, parse)[0] == INVALID_PUBDATE by {
      assert BadPubDate(data, parse);
    }
    DateErrorsFollowSchema(SchemaErrors(data), DateErrors(data, parse));
    MissingPubDateRequired(data);
  }

  lemma MissingPubDateRequired(data: Frontmatter)
    requires Get(data, "pubDate").Undefined?
    ensures "Missing or invalid " + "pubDate" + ": " + Message(Required) in SchemaErrors(data)
  {
    RequiredStringIssues(data, "pubDate");
    ReportedIssueText(data, "pubDate", Required);
  }

  /** `updatedDate` is checked only when truthy. */
  lemma {:induction false} UpdatedDateErrors(data: Frontmatter, parse: DateParser)
    ensures INVALID_UPDATED in Errors(data, parse) <==>
              Truthy(Get(data, "updatedDate")) && NewDate(Get(data, "updatedDate"), parse).None?
  {
    DateErrorLine(data, parse, INVALID_UPDATED);
    assert INVALID_PUBDATE != INVALID_UPDATED by {
      assert INVALID_PUBDATE[8] != INVALID_UPDATED[8];
    }
  }

  /**
   * The description is too short when absent or under 50 characters, too long
   * over 160, never both, and 50 to 160 characters gives neither.
   */
  lemma DescriptionWarnings(data: Frontmatter)
    ensures TOO_SHORT in Warnings(data) <==>
              !Truthy(Get(data, "description")) || (Length(Get(data, "description")).Some? && Length(Get(data, "description")).value < 50)
    ensures TOO_LONG in Warnings(data) <==>
              Truthy(Get(data, "description")) && Length(Get(data, "description")).Some? && Length(Get(data, "description")).value > 160
    ensures !(TOO_SHORT in Warnings(data) && TOO_LONG in Warnings(data))
    ensures Get(data, "description").Str? && 50 <= Utf16Length(Get(data, "description").s) <= 160 ==>
              TOO_SHORT !in Warnings(data) && TOO_LONG !in Warnings(data)
  {
  }

  /** The caption warning fires iff a truthy hero image has a falsy caption; the tags warning iff tags are absent or empty. */
  lemma HeroAndTagsWarnings(data: Frontmatter)
    ensures HERO_WITHOUT_CAPTION in Warnings(data) <==> Truthy(Get(data, "heroImage")) && !Truthy(Get(data, "heroCaption"))
    ensures NO_TAGS in Warnings(data) <==> !Truthy(Get(data, "tags")) || Length(Get(data, "tags")) == Some(0)
  {
  }

  function WarningRank(w: string): nat
  {
    if w == TOO_SHORT then 0 else if w == TOO_LONG then 1 else if w == HERO_WITHOUT_CAPTION then 2 else 3
  }

  /** Warnings come in the fixed order short, long, hero, tags, each at most once. */
  lemma WarningsOrdered(data: Frontmatter)
    ensures |Warnings(data)| <= 4
    ensures forall i, j :: 0 <= i < j < |Warnings(data)| ==> WarningRank(Warnings(data)[i]) < WarningRank(Warnings(data)[j])
  {
  }

  /** A report is returned iff there is an error or a warning, and then it carries them all. */
  lemma ReportIffIssues(file: string, data: Frontmatter, parse: DateParser)
    ensures Report(file, data, parse).Some? <==> Errors(data, parse) != [] || Warnings(data) != []
    ensures Report(file, data, parse).Some? ==>
              Report(file, data, parse).value == ValidationIssue(file, Errors(data, parse), Warnings(data))
  {
  }

  // ---------------------------------------------------------------------------
  // main

  predicate HasErrors(r: Option<ValidationIssue>)
  {
    r.Some? && |r.value.errors| > 0
  }

  /** A file makes the run fail: it cannot be read, or its report has errors. */
  predicate FileFails(file: string, contents: map<string, Frontmatter>, parse: DateParser)
  {
    file !in contents || HasErrors(Report(file, contents[file], parse))
  }

  /** A test applied to each file. */
  type FileTest = string -> bool

  /** Some element of the list satisfies `holds`: the recursion a running flag follows. */
  predicate SomeHolds(files: seq<string>, holds: FileTest)
  {
    files != [] && (SomeHolds(files[..|files| - 1], holds) || holds(files[|files| - 1]))
  }

  lemma {:induction false} SomeHoldsIff(files: seq<string>, holds: FileTest)
    ensures SomeHolds(files, holds) <==> exists k :: 0 <= k < |files| && holds(files[k])
  {
    if files != [] {
      var init, last := files[..|files| - 1], |files| - 1;
      SomeHoldsIff(init, holds);
      if SomeHolds(init, holds) {
        var k :| 0 <= k < |init| && holds(init[k]);
        assert files[k] == init[k];
      } else if !holds(files[last]) {
        forall k | 0 <= k < |files| ensures !holds(files[k]) {
          if k < last {
            assert files[k] == init[k];
          }
        }
      }
    }
  }

  /** Some file of the list makes the run fail. */
  predicate AnyFails(files: seq<string>, contents: map<string, Frontmatter>, parse: DateParser)
  {
    SomeHolds(files, file => FileFails(file, contents, parse))
  }

  lemma AnyFailsIff(files: seq<string>, contents: map<string, Frontmatter>, parse: DateParser)
    ensures AnyFails(files, contents, parse) <==> exists k :: 0 <= k < |files| && FileFails(files[k], contents, parse)
  {
    SomeHoldsIff(files, file => FileFails(file, contents, parse));
  }

  /**
   * `main`: validates every file the walk yields and returns the exit code.
   * `contents` maps each readable file to its parsed frontmatter; a file that
   * cannot be read or parsed makes the promise reject unhandled, and the
   * process exits with 1. Warnings alone never fail the run.
   */
  method RunValidation(tree: seq<Node>, contents: map<string, Frontmatter>, parse: DateParser) returns (code: int)
    ensures code == (if AnyFails(Walk(BLOG_DIR, tree), contents, parse) then 1 else 0)
  {
    var files := Walk(BLOG_DIR, tree);
    var hasErrors := false;
    var i := 0;
    while i < |files|
      invariant 0 <= i <= |files|
      invariant hasErrors == AnyFails(files[..i], contents, parse)
    {
      assert files[..i + 1][..i] == files[..i];
      if files[i] !in contents {
        AnyFailsExtend(files, i, contents, parse);
        return 1;
      }
      var issues := ValidatePost(files[i], contents[files[i]], parse);
      if issues.Some? {
        hasErrors := hasErrors || |issues.value.errors| > 0;
      }
      i := i + 1;
    }
    assert files[..i] == files;
    code := if hasErrors then 1 else 0;
  }

  /** Once a file fails, the whole list does. */
  lemma {:induction false} AnyFailsExtend(files: seq<string>, i: nat, contents: map<string, Frontmatter>, parse: DateParser)
    requires i < |files| && FileFails(files[i], contents, parse)
    ensures AnyFails(files, contents, parse)
  {
    AnyFailsIff(files, contents, parse);
  }

  /** The run succeeds exactly when every walked file is readable and free of errors. */
  lemma ExitCodeZeroIff(tree: seq<Node>, contents: map<string, Frontmatter>, parse: DateParser)
    ensures var files := Walk(BLOG_DIR, tree);
            !AnyFails(files, contents, parse) <==>
              forall k :: 0 <= k < |files| ==> files[k] in contents && !HasErrors(Report(files[k], contents[files[k]], parse))
  {
    AnyFailsIff(Walk(BLOG_DIR, tree), contents, parse);
  }
}
