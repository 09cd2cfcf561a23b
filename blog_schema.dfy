/**
 * The site's blog collection schema (`blogSchema` in the content
 * collection), as a function that either reports zod's issues or returns the
 * normalised post with every default applied.
 */
module BlogSchema {
  import opened Wrappers
  import opened JsValues
  import opened Zod

  const DEFAULT_AUTHOR: string := "Cleaver Barnes"

  /** The validated `data` of a blog entry. */
  datatype BlogPost = BlogPost(
    title: string,
    description: string,
    pubDate: Instant,
    author: string,
    tags: seq<string>,
    heroImage: Option<string>,
    heroCaption: Option<string>,
    updatedDate: Option<Instant>,
    featured: bool,
    draft: bool)

  /** `blogSchema`, field by field. */
  const BLOG_SHAPE: Shape := [
    FieldSpec("title", StringKind, Mandatory),
    FieldSpec("description", StringKind, Mandatory),
    FieldSpec("pubDate", CoercedDateKind, Mandatory),
    FieldSpec("author", StringKind, HasDefault),
    FieldSpec("tags", StringArrayKind, HasDefault),
    FieldSpec("heroImage", StringKind, Optional),
    FieldSpec("heroCaption", StringKind, Optional),
    FieldSpec("updatedDate", CoercedDateKind, Optional),
    FieldSpec("featured", BooleanKind, HasDefault),
    FieldSpec("draft", BooleanKind, HasDefault)
  ]

  function BlogIssues(data: Frontmatter, parse: DateParser): seq<Issue>
  {
    ObjectIssues(BLOG_SHAPE, data, parse)
  }

  /** What the schema accepts, field by field, without zod's issue lists. */
  ghost predicate Accepts(data: Frontmatter, parse: DateParser)
  {
    && Get(data, "title").Str?
    && Get(data, "description").Str?
    && NewDate(Get(data, "pubDate"), parse).Some?
    && (Get(data, "author").Undefined? || Get(data, "author").Str?)
    && (Get(data, "tags").Undefined?
        || (Get(data, "tags").Arr? && forall j :: 0 <= j < |Get(data, "tags").items| ==> Get(data, "tags").items[j].Str?))
    && (Get(data, "heroImage").Undefined? || Get(data, "heroImage").Str?)
    && (Get(data, "heroCaption").Undefined? || Get(data, "heroCaption").Str?)
    && (Get(data, "updatedDate").Undefined? || NewDate(Get(data, "updatedDate"), parse).Some?)
    && (Get(data, "featured").Undefined? || Get(data, "featured").Bool?)
    && (Get(data, "draft").Undefined? || Get(data, "draft").Bool?)
  }

  function OptString(v: Value): Option<string>
  {
    if v.Str? then Some(v.s) else None
  }

  function OptDate(v: Value, parse: DateParser): Option<Instant>
  {
    if v.Undefined? then None else NewDate(v, parse)
  }

  /** `blogSchema.parse(data)`: the issues, or the post with defaults filled in. */
  function NormalizeBlog(data: Frontmatter, parse: DateParser): (r: Result<BlogPost, seq<Issue>>)
    ensures r.Failure? ==> r.error == BlogIssues(data, parse) && r.error != []
  {
    var issues := BlogIssues(data, parse);
    if issues != [] then Failure(issues)
    else
      var author := Get(data, "author");
      var tags := Get(data, "tags");
      var featured := Get(data, "featured");
      var draft := Get(data, "draft");
      Success(BlogPost(
        title := if Get(data, "title").Str? then Get(data, "title").s else "",
        description := if Get(data, "description").Str? then Get(data, "description").s else "",
        pubDate := match NewDate(Get(data, "pubDate"), parse) case Some(t) => t case None => 0,
        author := if author.Str? then author.s else DEFAULT_AUTHOR,
        tags := if tags.Arr? then Strings(tags.items) else [],
        heroImage := OptString(Get(data, "heroImage")),
        heroCaption := OptString(Get(data, "heroCaption")),
        updatedDate := OptDate(Get(data, "updatedDate"), parse),
        featured := featured.Bool? && featured.b,
        draft := draft.Bool? && draft.b))
  }

  /** The schema accepts exactly the data described by Accepts. */
  lemma {:induction false} NormalizeBlogAccepts(data: Frontmatter, parse: DateParser)
    ensures NormalizeBlog(data, parse).Success? <==> Accepts(data, parse)
  {
    ObjectAccepts(BLOG_SHAPE, data, parse);
    var all := forall j :: 0 <= j < |BLOG_SHAPE| ==> FieldOk(BLOG_SHAPE, data, parse, j);
    var each := FieldOk(BLOG_SHAPE, data, parse, 0) && FieldOk(BLOG_SHAPE, data, parse, 1)
      && FieldOk(BLOG_SHAPE, data, parse, 2) && FieldOk(BLOG_SHAPE, data, parse, 3)
      && FieldOk(BLOG_SHAPE, data, parse, 4) && FieldOk(BLOG_SHAPE, data, parse, 5)
      && FieldOk(BLOG_SHAPE, data, parse, 6) && FieldOk(BLOG_SHAPE, data, parse, 7)
      && FieldOk(BLOG_SHAPE, data, parse, 8) && FieldOk(BLOG_SHAPE, data, parse, 9);
    assert all <==> each by {
      if each {
        forall j | 0 <= j < |BLOG_SHAPE| ensures FieldOk(BLOG_SHAPE, data, parse, j) {
          assert j == 0 || j == 1 || j == 2 || j == 3 || j == 4 || j == 5 || j == 6 || j == 7 || j == 8 || j == 9;
        }
      }
    }
    FieldsMeaning(data, parse);
    OptionalFieldsMeaning(data, parse);
  }

  /** What each field's check amounts to for the blog shape: the mandatory and defaulted fields... */
  lemma FieldsMeaning(data: Frontmatter, parse: DateParser)
    ensures FieldOk(BLOG_SHAPE, data, parse, 0) <==> Get(data, "title").Str?
    ensures FieldOk(BLOG_SHAPE, data, parse, 1) <==> Get(data, "description").Str?
    ensures FieldOk(BLOG_SHAPE, data, parse, 2) <==> NewDate(Get(data, "pubDate"), parse).Some?
    ensures FieldOk(BLOG_SHAPE, data, parse, 3) <==> Get(data, "author").Undefined? || Get(data, "author").Str?
    ensures FieldOk(BLOG_SHAPE, data, parse, 4) <==>
              Get(data, "tags").Undefined?
              || (Get(data, "tags").Arr? && forall j :: 0 <= j < |Get(data, "tags").items| ==> Get(data, "tags").items[j].Str?)
  {
  }

  /** ... and the optional ones and the flags. */
  lemma OptionalFieldsMeaning(data: Frontmatter, parse: DateParser)
    ensures FieldOk(BLOG_SHAPE, data, parse, 5) <==> Get(data, "heroImage").Undefined? || Get(data, "heroImage").Str?
    ensures FieldOk(BLOG_SHAPE, data, parse, 6) <==> Get(data, "heroCaption").Undefined? || Get(data, "heroCaption").Str?
    ensures FieldOk(BLOG_SHAPE, data, parse, 7) <==>
              Get(data, "updatedDate").Undefined? || NewDate(Get(data, "updatedDate"), parse).Some?
    ensures FieldOk(BLOG_SHAPE, data, parse, 8) <==> Get(data, "featured").Undefined? || Get(data, "featured").Bool?
    ensures FieldOk(BLOG_SHAPE, data, parse, 9) <==> Get(data, "draft").Undefined? || Get(data, "draft").Bool?
  {
  }

  /** A missing or mistyped title or description is reported at that field's path. */
  lemma {:induction false} RequiredStrings(data: Frontmatter, parse: DateParser, key: string)
    requires key == "title" || key == "description"
    requires !Get(data, key).Str?
    ensures NormalizeBlog(data, parse).Failure?
    ensures Issue([key], if Get(data, key).Undefined? then Required else Expected("string", TypeName(Get(data, key))))
            in NormalizeBlog(data, parse).error
  {
    var j := if key == "title" then 0 else 1;
    var v := Get(data, key);
    var issue := Issue([key], if v.Undefined? then Required else Expected("string", TypeName(v)));
    assert BLOG_SHAPE[j] == FieldSpec(key, StringKind, Mandatory);
    assert FieldIssues(BLOG_SHAPE[j], v, parse) == [issue];
    FieldIssuesReported(BLOG_SHAPE, data, parse, j);
    assert issue in BlogIssues(data, parse);
  }

  /** `pubDate` is required and coerced; a missing one is an invalid date, a `null` one is the epoch. */
  lemma {:induction false} PubDateCoerced(data: Frontmatter, parse: DateParser)
    ensures Get(data, "pubDate").Undefined? ==> Issue(["pubDate"], InvalidDate) in BlogIssues(data, parse)
    ensures NormalizeBlog(data, parse).Success? ==>
              Some(NormalizeBlog(data, parse).value.pubDate) == NewDate(Get(data, "pubDate"), parse)
    ensures NormalizeBlog(data, parse).Success? && Get(data, "pubDate").Null? ==>
              NormalizeBlog(data, parse).value.pubDate == 0
  {
    FieldIssuesReported(BLOG_SHAPE, data, parse, 2);
    NormalizeBlogAccepts(data, parse);
  }

  /** `updatedDate` is optional; when present it is coerced like `pubDate`. */
  lemma {:induction false} UpdatedDateOptional(data: Frontmatter, parse: DateParser)
    requires NormalizeBlog(data, parse).Success?
    ensures var p := NormalizeBlog(data, parse).value;
            if Get(data, "updatedDate").Undefined? then p.updatedDate.None?
            else p.updatedDate.Some? && Some(p.updatedDate.value) == NewDate(Get(data, "updatedDate"), parse)
  {
    NormalizeBlogAccepts(data, parse);
  }

  /** Defaults fill absent fields only; a supplied value passes through unchanged. */
  lemma {:induction false} DefaultsOnlyWhenAbsent(data: Frontmatter, parse: DateParser)
    requires NormalizeBlog(data, parse).Success?
    ensures var p := NormalizeBlog(data, parse).value;
            && Get(data, "title") == Str(p.title)
            && Get(data, "description") == Str(p.description)
            && (if Get(data, "author").Undefined? then p.author == DEFAULT_AUTHOR
                else Get(data, "author") == Str(p.author))
            && (if Get(data, "tags").Undefined? then p.tags == []
                else Get(data, "tags").Arr? && |Get(data, "tags").items| == |p.tags|
                     && forall j :: 0 <= j < |p.tags| ==> Get(data, "tags").items[j] == Str(p.tags[j]))
            && (if Get(data, "featured").Undefined? then !p.featured
                else Get(data, "featured") == Bool(p.featured))
            && (if Get(data, "draft").Undefined? then !p.draft
                else Get(data, "draft") == Bool(p.draft))
  {
    NormalizeBlogAccepts(data, parse);
  }

  /** A post with a hero image and no caption is accepted: the two are independent. */
  lemma {:induction false} HeroCaptionIndependent(data: Frontmatter, parse: DateParser)
    requires NormalizeBlog(data, parse).Success?
    ensures var p := NormalizeBlog(data, parse).value;
            && p.heroImage == OptString(Get(data, "heroImage"))
            && p.heroCaption == OptString(Get(data, "heroCaption"))
    ensures Get(data, "heroImage").Str? ==> NormalizeBlog(data - {"heroCaption"}, parse).Success?
    ensures Get(data, "heroCaption").Str? ==> NormalizeBlog(data - {"heroImage"}, parse).Success?
  {
    DropOptional(data, parse, "heroCaption");
    DropOptional(data, parse, "heroImage");
  }

  /** Removing an optional hero field from accepted data leaves it accepted. */
  lemma DropOptional(data: Frontmatter, parse: DateParser, key: string)
    requires key == "heroImage" || key == "heroCaption"
    requires NormalizeBlog(data, parse).Success?
    ensures NormalizeBlog(data - {key}, parse).Success?
  {
    NormalizeBlogAccepts(data, parse);
    assert forall k :: k != key ==> Get(data - {key}, k) == Get(data, k);
    assert Get(data - {key}, key) == Undefined;
    NormalizeBlogAccepts(data - {key}, parse);
  }


}
