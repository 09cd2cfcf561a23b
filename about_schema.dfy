/**
 * The about-page collection schema (`aboutSchema`), as a normalisation
 * function: zod's issues, or the page with `showInNav` defaulted.
 */
module AboutSchema {
  import opened Wrappers
  import opened JsValues
  import opened Zod

  datatype AboutPage = AboutPage(
    title: string,
    description: string,
    lastUpdated: Instant,
    sections: seq<string>,
    showInNav: bool)

  /** `aboutSchema`, field by field. */
  const ABOUT_SHAPE: Shape := [
    FieldSpec("title", StringKind, Mandatory),
    FieldSpec("description", StringKind, Mandatory),
    FieldSpec("lastUpdated", DateKind, Mandatory),
    FieldSpec("sections", StringArrayKind, Mandatory),
    FieldSpec("showInNav", BooleanKind, HasDefault)
  ]

  function AboutIssues(data: Frontmatter): seq<Issue>
  {
    ObjectIssues(ABOUT_SHAPE, data, NoParse)
  }

  /** `z.date()` never coerces, so no date parser is involved. */
  function NoParse(v: Value): Option<Instant>
  {
    None
  }

  /** `aboutSchema.parse(data)`. */
  function NormalizeAbout(data: Frontmatter): (r: Result<AboutPage, seq<Issue>>)
    ensures r.Failure? ==> r.error == AboutIssues(data) && r.error != []
  {
    var issues := AboutIssues(data);
    if issues != [] then Failure(issues)
    else
      var sections := Get(data, "sections");
      var show := Get(data, "showInNav");
      Success(AboutPage(
        title := if Get(data, "title").Str? then Get(data, "title").s else "",
        description := if Get(data, "description").Str? then Get(data, "description").s else "",
        lastUpdated := if Get(data, "lastUpdated").DateVal? then Get(data, "lastUpdated").t else 0,
        sections := if sections.Arr? then Strings(sections.items) else [],
        showInNav := if show.Bool? then show.b else true))
  }

  /**
   * The page is accepted exactly when title and description are strings,
   * `lastUpdated` is already a date, `sections` is an array of strings and
   * `showInNav` is absent or boolean; the fields pass through, and an absent
   * `showInNav` becomes true.
   */
  lemma {:induction false} NormalizeAboutFields(data: Frontmatter)
    ensures NormalizeAbout(data).Success? <==>
              && Get(data, "title").Str? && Get(data, "description").Str?
              && Get(data, "lastUpdated").DateVal?
              && Get(data, "sections").Arr?
              && (forall j :: 0 <= j < |Get(data, "sections").items| ==> Get(data, "sections").items[j].Str?)
              && (Get(data, "showInNav").Undefined? || Get(data, "showInNav").Bool?)
    ensures NormalizeAbout(data).Success? ==>
              var p := NormalizeAbout(data).value;
              && Get(data, "title") == Str(p.title)
              && Get(data, "description") == Str(p.description)
              && Get(data, "lastUpdated") == DateVal(p.lastUpdated)
              && |p.sections| == |Get(data, "sections").items|
              && (forall j :: 0 <= j < |p.sections| ==> Get(data, "sections").items[j] == Str(p.sections[j]))
              && (if Get(data, "showInNav").Undefined? then p.showInNav else Get(data, "showInNav") == Bool(p.showInNav))
  {
    ObjectAccepts(ABOUT_SHAPE, data, NoParse);
    var all := forall j :: 0 <= j < |ABOUT_SHAPE| ==> FieldOk(ABOUT_SHAPE, data, NoParse, j);
    var each := FieldOk(ABOUT_SHAPE, data, NoParse, 0) && FieldOk(ABOUT_SHAPE, data, NoParse, 1)
      && FieldOk(ABOUT_SHAPE, data, NoParse, 2) && FieldOk(ABOUT_SHAPE, data, NoParse, 3)
      && FieldOk(ABOUT_SHAPE, data, NoParse, 4);
    assert all <==> each by {
      if each {
        forall j | 0 <= j < |ABOUT_SHAPE| ensures FieldOk(ABOUT_SHAPE, data, NoParse, j) {
          assert j == 0 || j == 1 || j == 2 || j == 3 || j == 4;
        }
      }
    }
  }

  /** Unlike the blog's `pubDate`, `lastUpdated` is not coerced: a date written as a string is rejected. */
  lemma {:induction false} LastUpdatedNotCoerced(data: Frontmatter, text: string)
    requires Get(data, "lastUpdated") == Str(text)
    ensures NormalizeAbout(data).Failure?
    ensures Issue(["lastUpdated"], Expected("date", "string")) in NormalizeAbout(data).error
  {
    FieldIssuesReported(ABOUT_SHAPE, data, NoParse, 2);
    assert ABOUT_SHAPE[2] == FieldSpec("lastUpdated", DateKind, Mandatory);
    assert Issue(["lastUpdated"], Expected("date", "string")) in FieldIssues(ABOUT_SHAPE[2], Str(text), NoParse);
  }
}
