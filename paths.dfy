/**
 * Directory trees and the `path` helpers the scripts use: `join`, `extname`,
 * `basename`, and the `getDirectories` listing filter.
 */
module Paths {
  import opened Wrappers
  import opened Text

  /** A directory entry as `readdir(..., { withFileTypes: true })` reports it. */
  datatype Node = File(name: string) | Dir(name: string, children: seq<Node>)

  /** A name a directory entry can have: non-empty and without '/'. */
  predicate EntryName(name: string)
  {
    name != "" && forall j :: 0 <= j < |name| ==> name[j] != '/'
  }

  /** Every entry of the tree, at any depth, has an entry name. */
  predicate WellNamed(entries: seq<Node>)
  {
    forall k :: 0 <= k < |entries| ==>
      EntryName(entries[k].name) && (entries[k].Dir? ==> WellNamed(entries[k].children))
  }

  /** `path.join(dir, name)` for a single name (no normalisation of `.`, `..` or `//`). */
  function PathJoin(dir: string, name: string): string
  {
    if dir == "" then name else dir + "/" + name
  }

  /**
   * `getDirectories`: the names of the directory entries of a listing, in
   * listing order (migrate-content.ts and migrate-images.ts define it alike).
   */
  function Directories(listing: seq<Node>): (r: seq<string>)
    ensures |r| <= |listing|
    ensures forall n :: n in r <==> exists i :: 0 <= i < |listing| && listing[i].Dir? && listing[i].name == n
  {
    if listing == [] then []
    else
      var rest := Directories(listing[1..]);
      assert forall i :: 0 <= i < |listing| - 1 ==> listing[1..][i] == listing[i + 1];
      if listing[0].Dir? then [listing[0].name] + rest else rest
  }

  /** `getDirectories` keeps listing order: it works on each part of a concatenated listing separately. */
  lemma {:induction false} DirectoriesAppend(a: seq<Node>, b: seq<Node>)
    ensures Directories(a + b) == Directories(a) + Directories(b)
  {
    if a == [] {
      assert a + b == b;
    } else {
      var rest := a[1..];
      var head := if a[0].Dir? then [a[0].name] else [];
      assert a == [a[0]] + rest;
      assert a + b == [a[0]] + (rest + b);
      calc {
        Directories(a + b);
        { DirectoriesCons(a[0], rest + b); }
        head + Directories(rest + b);
        { DirectoriesAppend(rest, b); }
        head + (Directories(rest) + Directories(b));
        (head + Directories(rest)) + Directories(b);
        { DirectoriesCons(a[0], rest); }
        Directories(a) + Directories(b);
      }
    }
  }

  lemma DirectoriesCons(n: Node, rest: seq<Node>)
    ensures Directories([n] + rest) == (if n.Dir? then [n.name] else []) + Directories(rest)
  {
    assert ([n] + rest)[1..] == rest;
  }

  /** A single entry gives its name exactly when it is a directory. */
  lemma DirectoriesOne(n: Node)
    ensures Directories([n]) == if n.Dir? then [n.name] else []
  {
    assert [n][1..] == [];
  }

  /** `s.lastIndexOf(c)`. */
  function LastIndexOf(s: string, c: char): (r: Option<nat>)
    ensures r.Some? ==> r.value < |s| && s[r.value] == c
    ensures r.Some? ==> forall j :: r.value < j < |s| ==> s[j] != c
    ensures r.None? ==> forall j :: 0 <= j < |s| ==> s[j] != c
  {
    if s == [] then None
    else if s[|s| - 1] == c then Some(|s| - 1)
    else LastIndexOf(s[..|s| - 1], c)
  }

  /**
   * `path.extname(name)` for a name without '/': the text from the last '.'
   * on, or "" when there is no '.' or the last '.' is the first character
   * (dot-files), and "" for "..".
   */
  function ExtName(name: string): (r: string)
    ensures EndsWith(name, r)
    ensures r != "" ==> r[0] == '.' && |r| < |name| && forall j :: 1 <= j < |r| ==> r[j] != '.'
  {
    if name == ".." then ""
    else
      match LastIndexOf(name, '.')
      case None => ""
      case Some(k) => if k == 0 then "" else name[k..]
  }

  /** `path.basename(p)`: the text after the last '/'. */
  function BaseName(p: string): (r: string)
    ensures EndsWith(p, r)
    ensures forall j :: 0 <= j < |r| ==> r[j] != '/'
    ensures |r| < |p| ==> p[|p| - |r| - 1] == '/'
  {
    match LastIndexOf(p, '/')
    case None => p
    case Some(k) => p[k + 1..]
  }

  /** The base name of `dir/n` is `n` when `n` has no '/'. */
  lemma BaseNameOfJoin(dir: string, n: string)
    requires forall j :: 0 <= j < |n| ==> n[j] != '/'
    ensures BaseName(PathJoin(dir, n)) == n
  {
    var p := PathJoin(dir, n);
    if dir == "" {
      assert LastIndexOf(p, '/') == None;
    } else {
      assert p[|dir|] == '/';
      assert forall j :: |dir| < j < |p| ==> p[j] == n[j - |dir| - 1];
      assert LastIndexOf(p, '/') == Some(|dir|);
      assert p[|dir| + 1..] == n;
    }
  }

  /** The extension of `<a>.<b>` when `b` has no '.': `.<b>`, or nothing for a dot-file (`a` empty). */
  lemma ExtNameOf(a: string, b: string)
    requires forall j :: 0 <= j < |b| ==> b[j] != '.'
    requires a + "." + b != ".."
    ensures ExtName(a + "." + b) == if a == "" then "" else "." + b
  {
    var s := a + "." + b;
    assert s[|a|] == '.';
    assert forall j :: |a| < j < |s| ==> s[j] == b[j - |a| - 1];
    assert LastIndexOf(s, '.') == Some(|a|);
    assert s[|a|..] == "." + b;
  }
}
