/**
 * `sortPostsByDate`: the blog collection sorted in place, newest `pubDate`
 * first. `Array.prototype.sort` is stable, so posts with the same date keep
 * their relative order; `SortByDate` is that order, built by inserting each
 * post into the sorted prefix before it.
 */
module Collections {
  import opened JsValues
  import opened BlogSchema

  /** A `CollectionEntry<'blog'>`: the id the loader generated and the parsed frontmatter. */
  datatype Entry = Entry(id: string, data: BlogPost)

  function Date(e: Entry): Instant
  {
    e.data.pubDate
  }

  /** Newest first. */
  predicate Descending(s: seq<Entry>)
  {
    forall i, j :: 0 <= i < j < |s| ==> Date(s[i]) >= Date(s[j])
  }

  /** `x` placed after every entry dated on or after it, and before the first older one. */
  function Insert(s: seq<Entry>, x: Entry): (r: seq<Entry>)
    ensures |r| == |s| + 1
  {
    if s == [] then [x]
    else if Date(s[0]) >= Date(x) then [s[0]] + Insert(s[1..], x)
    else [x] + s
  }

  lemma {:induction false} InsertPermutes(s: seq<Entry>, x: Entry)
    ensures multiset(Insert(s, x)) == multiset(s) + multiset{x}
  {
    if s != [] {
      assert s == [s[0]] + s[1..];
      if Date(s[0]) >= Date(x) {
        InsertPermutes(s[1..], x);
      }
    }
  }

  /** The order the comparator `b.pubDate - a.pubDate` gives under a stable sort. */
  function SortByDate(s: seq<Entry>): seq<Entry>
  {
    if s == [] then [] else Insert(SortByDate(s[..|s| - 1]), s[|s| - 1])
  }

  /** The entries of `s` dated exactly `d`, in order. */
  function DatedOn(s: seq<Entry>, d: Instant): seq<Entry>
  {
    if s == [] then []
    else (if Date(s[0]) == d then [s[0]] else []) + DatedOn(s[1..], d)
  }

  lemma {:induction false} InsertDescending(s: seq<Entry>, x: Entry)
    requires Descending(s)
    ensures Descending(Insert(s, x))
  {
    if s != [] && Date(s[0]) >= Date(x) {
      InsertDescending(s[1..], x);
      var r := Insert(s, x);
      assert r == [s[0]] + Insert(s[1..], x);
      InsertPermutes(s[1..], x);
      forall k | 1 <= k < |r| ensures Date(r[0]) >= Date(r[k]) {
        assert r[k] in multiset(Insert(s[1..], x));
        assert r[k] in s[1..] || r[k] == x;
      }
    }
  }

  /** The sorted order is newest first. */
  lemma {:induction false} SortDescending(s: seq<Entry>)
    ensures Descending(SortByDate(s))
  {
    if s != [] {
      SortDescending(s[..|s| - 1]);
      InsertDescending(SortByDate(s[..|s| - 1]), s[|s| - 1]);
    }
  }

  /** Sorting neither loses nor duplicates a post. */
  lemma {:induction false} SortPermutes(s: seq<Entry>)
    ensures |SortByDate(s)| == |s|
    ensures multiset(SortByDate(s)) == multiset(s)
  {
    if s != [] {
      var init, last := s[..|s| - 1], s[|s| - 1];
      calc {
        multiset(SortByDate(s));
        multiset(Insert(SortByDate(init), last));
        { InsertPermutes(SortByDate(init), last); }
        multiset(SortByDate(init)) + multiset{last};
        { SortPermutes(init); }
        multiset(init) + multiset{last};
        { assert init + [last] == s; }
        multiset(s);
      }
      SortPermutes(init);
    }
  }

  lemma {:induction false} DatedOnAppend(a: seq<Entry>, b: seq<Entry>, d: Instant)
    ensures DatedOn(a + b, d) == DatedOn(a, d) + DatedOn(b, d)
  {
    if a == [] {
      assert a + b == b;
    } else {
      assert (a + b)[0] == a[0];
      assert (a + b)[1..] == a[1..] + b;
      DatedOnAppend(a[1..], b, d);
      var head := if Date(a[0]) == d then [a[0]] else [];
      assert head + (DatedOn(a[1..], d) + DatedOn(b, d)) == head + DatedOn(a[1..], d) + DatedOn(b, d);
    }
  }

  /** Inserting into a sorted list puts `x` after every entry of its own date. */
  lemma {:induction false} InsertKeepsTies(s: seq<Entry>, x: Entry, d: Instant)
    requires Descending(s)
    ensures DatedOn(Insert(s, x), d) == DatedOn(s, d) + (if Date(x) == d then [x] else [])
  {
    if s == [] {
    } else if Date(s[0]) >= Date(x) {
      DescendingTail(s);
      InsertKeepsTies(s[1..], x, d);
      assert Insert(s, x) == [s[0]] + Insert(s[1..], x);
      DatedOnAppend([s[0]], Insert(s[1..], x), d);
      DatedOnAppend([s[0]], s[1..], d);
      assert [s[0]] + s[1..] == s;
      var head, tail := DatedOn([s[0]], d), if Date(x) == d then [x] else [];
      assert head + (DatedOn(s[1..], d) + tail) == head + DatedOn(s[1..], d) + tail;
    } else {
      forall k | 0 <= k < |s| ensures Date(s[k]) < Date(x) {
        if k > 0 {
          assert Date(s[0]) >= Date(s[k]);
        }
      }
      NoneDatedOn(s, Date(x));
      assert Insert(s, x) == [x] + s;
      DatedOnAppend([x], s, d);
    }
  }

  lemma DescendingTail(s: seq<Entry>)
    requires s != [] && Descending(s)
    ensures Descending(s[1..])
  {
    forall i, j | 0 <= i < j < |s| - 1 ensures Date(s[1..][i]) >= Date(s[1..][j]) {
      assert s[1..][i] == s[i + 1] && s[1..][j] == s[j + 1];
    }
  }

  /** No entry of a list dated before `t` is dated `t`... */
  lemma {:induction false} NoneDatedOn(s: seq<Entry>, t: Instant)
    requires forall k :: 0 <= k < |s| ==> Date(s[k]) < t
    ensures DatedOn(s, t) == []
  {
    if s != [] {
      NoneDatedOn(s[1..], t);
    }
  }

  /** Posts with the same date keep their relative order: the sort is stable. */
  lemma {:induction false} SortStable(s: seq<Entry>, d: Instant)
    ensures DatedOn(SortByDate(s), d) == DatedOn(s, d)
  {
    if s != [] {
      var init, last := s[..|s| - 1], s[|s| - 1];
      var tail := if Date(last) == d then [last] else [];
      calc {
        DatedOn(SortByDate(s), d);
        DatedOn(Insert(SortByDate(init), last), d);
        { SortDescending(init); InsertKeepsTies(SortByDate(init), last, d); }
        DatedOn(SortByDate(init), d) + tail;
        { SortStable(init, d); }
        DatedOn(init, d) + tail;
        { DatedOnAppend(init, [last], d); assert DatedOn([last], d) == tail; }
        DatedOn(init + [last], d);
        { assert init + [last] == s; }
        DatedOn(s, d);
      }
    }
  }

  /** Where `Insert` puts `x`: at the first position whose entry is older. */
  lemma {:induction false} InsertAt(s: seq<Entry>, x: Entry, j: nat)
    requires j <= |s|
    requires forall k :: 0 <= k < j ==> Date(s[k]) >= Date(x)
    requires forall k :: j <= k < |s| ==> Date(s[k]) < Date(x)
    ensures Insert(s, x) == s[..j] + [x] + s[j..]
  {
    if j > 0 {
      InsertAt(s[1..], x, j - 1);
      assert s[..j] == [s[0]] + s[1..][..j - 1];
      assert s[j..] == s[1..][j - 1..];
    } else if s != [] {
      assert s[j..] == s;
    }
  }

  /**
   * One step of the insertion sort: the entry at `i` moves left past every
   * strictly older entry of the sorted prefix before it.
   */
  method InsertInto(posts: array<Entry>, i: nat)
    requires i < posts.Length && Descending(posts[..i])
    modifies posts
    ensures posts[..] == Insert(old(posts[..i]), old(posts[i])) + old(posts[i + 1..])
  {
    ghost var p := posts[..];
    var x := posts[i];
    var j := i;
    while j > 0 && Date(posts[j - 1]) < Date(x)
      invariant 0 <= j <= i
      invariant forall k :: 0 <= k < j ==> posts[k] == p[k]
      invariant forall k :: j < k <= i ==> posts[k] == p[k - 1]
      invariant forall k :: i < k < posts.Length ==> posts[k] == p[k]
      invariant forall k :: j <= k < i ==> Date(p[k]) < Date(x)
    {
      posts[j] := posts[j - 1];
      j := j - 1;
    }
    posts[j] := x;
    ShiftedIsInsert(p, posts[..], i, j);
  }

  /** The array after the shifting loop, as a sequence: the entry at `i` inserted into the prefix. */
  lemma ShiftedIsInsert(p: seq<Entry>, q: seq<Entry>, i: nat, j: nat)
    requires j <= i < |p| == |q| && Descending(p[..i])
    requires forall k :: 0 <= k < j ==> q[k] == p[k]
    requires q[j] == p[i]
    requires forall k :: j < k <= i ==> q[k] == p[k - 1]
    requires forall k :: i < k < |q| ==> q[k] == p[k]
    requires forall k :: j <= k < i ==> Date(p[k]) < Date(p[i])
    requires j > 0 ==> Date(p[j - 1]) >= Date(p[i])
    ensures q == Insert(p[..i], p[i]) + p[i + 1..]
  {
    assert q == p[..j] + [p[i]] + p[j..i] + p[i + 1..];
    InsertAfterShift(p[..i], p[i], j);
    assert p[..i][..j] == p[..j] && p[..i][j..] == p[j..i];
  }

  /** Where the shifting loop stops is where `Insert` puts the entry. */
  lemma InsertAfterShift(s: seq<Entry>, x: Entry, j: nat)
    requires j <= |s| && Descending(s)
    requires j > 0 ==> Date(s[j - 1]) >= Date(x)
    requires forall k :: j <= k < |s| ==> Date(s[k]) < Date(x)
    ensures Insert(s, x) == s[..j] + [x] + s[j..]
  {
    InsertAt(s, x, j);
  }

  /**
   * `posts.sort((a, b) => b.data.pubDate - a.data.pubDate)`: sorts the array
   * in place and returns it. The engine's own algorithm is not modelled; an
   * insertion sort that moves an entry only past strictly older ones yields the
   * same stable order.
   */
  method SortPostsByDate(posts: array<Entry>) returns (sorted: array<Entry>)
    modifies posts
    ensures sorted == posts
    ensures posts[..] == SortByDate(old(posts[..]))
  {
    ghost var input := posts[..];
    for i := 0 to posts.Length
      invariant posts[..] == SortByDate(input[..i]) + input[i..]
    {
      SortStep(input, i, posts[..]);
      InsertInto(posts, i);
    }
    assert input[..posts.Length] == input;
    sorted := posts;
  }

  /** One round of the sorting loop: inserting the next input entry into the sorted prefix sorts one more entry. */
  lemma SortStep(input: seq<Entry>, i: nat, a: seq<Entry>)
    requires i < |input| && a == SortByDate(input[..i]) + input[i..]
    ensures |a| == |input| && Descending(a[..i])
    ensures Insert(a[..i], a[i]) + a[i + 1..] == SortByDate(input[..i + 1]) + input[i + 1..]
  {
    SortPermutes(input[..i]);
    SortDescending(input[..i]);
    assert a[..i] == SortByDate(input[..i]);
    assert a[i] == input[i] && a[i + 1..] == input[i + 1..];
    assert input[..i + 1][..i] == input[..i];
  }
}
