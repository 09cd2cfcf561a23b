/**
 * The blog collection's loader: which files under `src/content/blog` its
 * glob pattern (every `.md` file at any depth) picks up, and the id
 * `generateId` gives each of them.
 */
module ContentConfig {
  import opened Wrappers
  import opened Text
  import opened Paths

  const BLOG_BASE: string := "./src/content/blog"
  const ID_PREFIX: string := "/blog/"

  /** `path.basename(entry, path.extname(entry))`: the file name without its extension. */
  function FileStem(entry: string): (r: string)
    ensures var base := BaseName(entry);
            StartsWith(base, r) && base == r + ExtName(base)
    ensures forall j :: 0 <= j < |r| ==> r[j] != '/'
    ensures BaseName(entry) != "" ==> r != ""
  {
    var base := BaseName(entry);
    var ext := ExtName(base);
    assert base == base[..|base| - |ext|] + ext;
    base[..|base| - |ext|]
  }

  /** `generateId`: `/blog/` followed by the file stem, whatever directory the file is in. */
  function GenerateId(entry: string): (r: string)
    ensures StartsWith(r, ID_PREFIX) && r[|ID_PREFIX|..] == FileStem(entry)
  {
    ID_PREFIX + FileStem(entry)
  }

  /** What `*` in a glob does not match: a name starting with '.'. */
  predicate Hidden(name: string)
  {
    |name| > 0 && name[0] == '.'
  }

  /** The glob below `dir`: visible `.md` files in visible directories at any depth, in listing order. */
  function Glob(dir: string, entries: seq<Node>): seq<string>
    decreases entries, 1
  {
    if entries == [] then []
    else
      var e := entries[0];
      GlobEntry(dir, e) + Glob(dir, entries[1..])
  }

  /** A loaded path: a visible `.md` file, whose id is its name without `.md`. */
  predicate LoadedPath(p: string)
  {
    EndsWith(p, ".md") && !Hidden(BaseName(p)) && BaseName(p) == FileStem(p) + ".md"
  }

  /** What the glob yields for the first entry of a listing. */
  function GlobEntry(dir: string, e: Node): seq<string>
    decreases e, 0
  {
    if Hidden(e.name) then []
    else match e
      case Dir(name, children) => Glob(PathJoin(dir, name), children)
      case File(name) => if EndsWith(name, ".md") then [PathJoin(dir, name)] else []
  }

  /** Every loaded entry is a visible `.md` file, so its id is its name without `.md`. */
  lemma {:induction false} GlobIds(dir: string, entries: seq<Node>)
    requires WellNamed(entries)
    ensures forall p :: p in Glob(dir, entries) ==> LoadedPath(p)
    decreases entries
  {
    if entries != [] {
      var e := entries[0];
      assert Glob(dir, entries) == GlobEntry(dir, e) + Glob(dir, entries[1..]);
      assert EntryName(e.name) && (e.Dir? ==> WellNamed(e.children));
      assert WellNamed(entries[1..]) by {
        forall k | 0 <= k < |entries[1..]|
          ensures EntryName(entries[1..][k].name) && (entries[1..][k].Dir? ==> WellNamed(entries[1..][k].children))
        {
          assert entries[1..][k] == entries[k + 1];
        }
      }
      GlobIds(dir, entries[1..]);
      if !Hidden(e.name) {
        if e.Dir? {
          GlobIds(PathJoin(dir, e.name), e.children);
        } else if EndsWith(e.name, ".md") {
          assert |e.name| > 3;
          MarkdownNameStem(dir, e.name);
        }
      }
    }
  }

  /** A file `n` in `dir` named `<stem>.md`: its base name is `n` and its stem `n` without `.md`. */
  lemma MarkdownNameStem(dir: string, n: string)
    requires EndsWith(n, ".md") && |n| > 3 && forall j :: 0 <= j < |n| ==> n[j] != '/'
    ensures var p := PathJoin(dir, n);
            EndsWith(p, ".md") && BaseName(p) == n && FileStem(p) + ".md" == n
  {
    var p := PathJoin(dir, n);
    BaseNameOfJoin(dir, n);
    assert p[|p| - 3..] == n[|n| - 3..];
    ExtNameMd(n);
  }

  /** The extension of a name `<stem>.md` with a non-empty stem is `.md`. */
  lemma ExtNameMd(n: string)
    requires EndsWith(n, ".md") && |n| > 3
    ensures ExtName(n) == ".md"
  {
    var k := LastIndexOf(n, '.');
    assert n[|n| - 3] == '.';
    assert k.Some? && k.value == |n| - 3;
    assert n != ".." by { assert |n| != 2; }
  }

  /**
   * The id depends only on the file name: two posts with the same file name
   * in different directories get the same id.
   */
  lemma SameNameSameId(dir1: string, dir2: string, n: string)
    requires forall j :: 0 <= j < |n| ==> n[j] != '/'
    ensures GenerateId(PathJoin(dir1, n)) == GenerateId(PathJoin(dir2, n))
  {
    BaseNameOfJoin(dir1, n);
    BaseNameOfJoin(dir2, n);
  }

  /** A post stored as `<dir>/<stem>.md` gets the id `/blog/<stem>`. */
  lemma IdOfMarkdownFile(dir: string, stem: string)
    requires stem != "" && forall j :: 0 <= j < |stem| ==> stem[j] != '/'
    ensures GenerateId(PathJoin(dir, stem + ".md")) == ID_PREFIX + stem
  {
    var n := stem + ".md";
    assert n[..|stem|] == stem && n[|n| - 3..] == ".md";
    MarkdownNameStem(dir, n);
    assert FileStem(PathJoin(dir, n)) == n[..|n| - 3];
  }
}
