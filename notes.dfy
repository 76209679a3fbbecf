/** The note collection of app.js and the queries over it: the note
    record, delete-by-id (`deleteNote`'s filter), the colour/tag/search
    filter (`filterNotes`) and the distinct sorted tag list
    (`updateTagFilter`). */
module Notes {
  import opened Text
  import opened Seqs
  import opened Classifier

  /** A saved note. `id` is `Date.now().toString()` and `createdAt` an ISO
      timestamp; both are supplied by the caller. */
  datatype Note = Note(id: string, title: string, content: string, color: Color, tags: seq<string>, createdAt: string)

  /** `appState.filters.color`: "all" or one colour. */
  datatype ColorFilter = AnyColor | OnlyColor(color: Color)

  /** `appState.filters.tag`: "all" or one tag, matched exactly. */
  datatype TagFilter = AnyTag | OnlyTag(tag: string)

  /** `appState.filters`. */
  datatype Filters = Filters(color: ColorFilter, tag: TagFilter, search: string)

  /** The initial filters: all colours, all tags, no search text. */
  const NoFilters: Filters := Filters(AnyColor, AnyTag, "")

  /** The note passes the colour filter. */
  predicate ColorPasses(f: ColorFilter, n: Note) {
    f == AnyColor || f == OnlyColor(n.color)
  }

  /** The note passes the tag filter: the tag is one of its tags, exactly. */
  predicate TagPasses(f: TagFilter, n: Note) {
    match f
    case AnyTag => true
    case OnlyTag(t) => t in n.tags
  }

  /** The lower-cased query occurs in the lower-cased title, in the
      lower-cased content, or in some lower-cased tag. */
  predicate Mentions(n: Note, query: string) {
    Contains(Lower(n.title), query) || Contains(Lower(n.content), query)
    || exists i | 0 <= i < |n.tags| :: Contains(Lower(n.tags[i]), query)
  }

  /** The note passes the search filter; empty search text passes all. */
  predicate SearchPasses(search: string, n: Note) {
    search == [] || Mentions(n, Lower(search))
  }

  /** The note passes all three filters. */
  predicate Matches(f: Filters, n: Note) {
    ColorPasses(f.color, n) && TagPasses(f.tag, n) && SearchPasses(f.search, n)
  }

  /** `filterNotes`: the colour filter, then the tag filter, then the
      search filter, each skipped when it is "all" or empty. */
  function FilterNotes(notes: seq<Note>, f: Filters): seq<Note> {
    var byColor :=
      if f.color == AnyColor then notes
      else Filter(notes, (n: Note) => n.color == f.color.color);
    var byTag :=
      if f.tag == AnyTag then byColor
      else Filter(byColor, (n: Note) => f.tag.tag in n.tags);
    if f.search == [] then byTag
    else
      var query := Lower(f.search);
      Filter(byTag, (n: Note) => Mentions(n, query))
  }

  /** The three stages amount to one filter by the conjunction of the
      three conditions. */
  lemma FilterNotesIsConjunction(notes: seq<Note>, f: Filters)
    ensures FilterNotes(notes, f) == Filter(notes, (n: Note) => Matches(f, n))
  {
    var pc := (n: Note) => ColorPasses(f.color, n);
    var pt := (n: Note) => TagPasses(f.tag, n);
    var ps := (n: Note) => SearchPasses(f.search, n);
    var byColor :=
      if f.color == AnyColor then notes
      else Filter(notes, (n: Note) => n.color == f.color.color);
    if f.color == AnyColor {
      FilterKeepsAll(notes, pc);
    } else {
      FilterAgree(notes, (n: Note) => n.color == f.color.color, pc);
    }
    assert byColor == Filter(notes, pc);
    var byTag :=
      if f.tag == AnyTag then byColor
      else Filter(byColor, (n: Note) => f.tag.tag in n.tags);
    if f.tag == AnyTag {
      FilterKeepsAll(byColor, pt);
    } else {
      FilterAgree(byColor, (n: Note) => f.tag.tag in n.tags, pt);
    }
    assert byTag == Filter(byColor, pt);
    var pct := (n: Note) => pc(n) && pt(n);
    FilterFuse(notes, pc, pt, pct);
    if f.search == [] {
      FilterKeepsAll(byTag, ps);
    } else {
      var query := Lower(f.search);
      FilterAgree(byTag, (n: Note) => Mentions(n, query), ps);
    }
    assert FilterNotes(notes, f) == Filter(byTag, ps);
    FilterFuse(notes, pct, ps, (n: Note) => Matches(f, n));
  }

  /** A note is shown if and only if it is in the collection and passes
      all three filters; the shown notes keep the collection's order, and
      every copy of a shown note is shown. */
  lemma FilterNotesSpec(notes: seq<Note>, f: Filters)
    ensures forall n :: n in FilterNotes(notes, f) <==> n in notes && Matches(f, n)
    ensures IsSubsequence(FilterNotes(notes, f), notes)
    ensures forall n :: multiset(FilterNotes(notes, f))[n] == if Matches(f, n) then multiset(notes)[n] else 0
  {
    FilterNotesIsConjunction(notes, f);
    FilterIsSubsequence(notes, (n: Note) => Matches(f, n));
    forall n ensures multiset(FilterNotes(notes, f))[n] == if Matches(f, n) then multiset(notes)[n] else 0 {
      FilterMultiplicity(notes, (n: Note) => Matches(f, n), n);
    }
  }

  /** With colour "all", tag "all" and no search text, every note is shown
      in its order. */
  lemma FilterNotesUnfiltered(notes: seq<Note>)
    ensures FilterNotes(notes, NoFilters) == notes
  {
  }

  /** The colour stage followed by the tag stage keeps the same notes as
      one filter by colour and tag together. */
  lemma ColorThenTag(notes: seq<Note>, c: Color, t: string)
    ensures FilterNotes(FilterNotes(notes, Filters(OnlyColor(c), AnyTag, "")), Filters(AnyColor, OnlyTag(t), ""))
         == FilterNotes(notes, Filters(OnlyColor(c), OnlyTag(t), ""))
  {
    FilterNotesIsConjunction(notes, Filters(OnlyColor(c), AnyTag, ""));
    FilterNotesIsConjunction(FilterNotes(notes, Filters(OnlyColor(c), AnyTag, "")), Filters(AnyColor, OnlyTag(t), ""));
    FilterNotesIsConjunction(notes, Filters(OnlyColor(c), OnlyTag(t), ""));
    FilterFuse(notes, (n: Note) => Matches(Filters(OnlyColor(c), AnyTag, ""), n),
      (n: Note) => Matches(Filters(AnyColor, OnlyTag(t), ""), n),
      (n: Note) => Matches(Filters(OnlyColor(c), OnlyTag(t), ""), n));
  }

  /** `deleteNote(id)`'s filter: the notes whose id differs. */
  function WithoutId(notes: seq<Note>, id: string): seq<Note> {
    Filter(notes, (n: Note) => n.id != id)
  }

  /** Deleting keeps exactly the notes with another id, in their order and
      with their multiplicities. */
  lemma WithoutIdSpec(notes: seq<Note>, id: string)
    ensures forall n :: n in WithoutId(notes, id) <==> n in notes && n.id != id
    ensures IsSubsequence(WithoutId(notes, id), notes)
    ensures forall n :: multiset(WithoutId(notes, id))[n] == if n.id != id then multiset(notes)[n] else 0
  {
    FilterIsSubsequence(notes, (n: Note) => n.id != id);
    forall n ensures multiset(WithoutId(notes, id))[n] == if n.id != id then multiset(notes)[n] else 0 {
      FilterMultiplicity(notes, (n: Note) => n.id != id, n);
    }
  }

  /** Deleting an id that no note has changes nothing. */
  lemma WithoutAbsentId(notes: seq<Note>, id: string)
    requires forall i :: 0 <= i < |notes| ==> notes[i].id != id
    ensures WithoutId(notes, id) == notes
  {
    FilterKeepsAll(notes, (n: Note) => n.id != id);
  }

  /** Deleting the same id twice is deleting it once. */
  lemma WithoutIdIdempotent(notes: seq<Note>, id: string)
    ensures WithoutId(WithoutId(notes, id), id) == WithoutId(notes, id)
  {
    FilterIdempotent(notes, (n: Note) => n.id != id);
  }

  /** Some note carries the tag. */
  predicate TagInUse(notes: seq<Note>, t: string) {
    exists i | 0 <= i < |notes| :: t in notes[i].tags
  }

  /** Ascending in LexLess, hence also free of duplicates. */
  predicate StrictlySorted(s: seq<string>) {
    forall i, j :: 0 <= i < j < |s| ==> LexLess(s[i], s[j])
  }

  /** The tags in use after one more note are those before plus its own. */
  lemma TagInUseStep(notes: seq<Note>, i: nat, t: string)
    requires i < |notes|
    ensures TagInUse(notes[..i + 1], t) <==> TagInUse(notes[..i], t) || t in notes[i].tags
  {
    if TagInUse(notes[..i + 1], t) {
      var k :| 0 <= k < i + 1 && t in notes[..i + 1][k].tags;
      if k < i { assert notes[..i][k] == notes[k]; }
    }
    if TagInUse(notes[..i], t) {
      var k :| 0 <= k < i && t in notes[..i][k].tags;
      assert notes[..i + 1][k] == notes[k];
    }
    if t in notes[i].tags {
      assert notes[..i + 1][i] == notes[i];
    }
  }

  /** Inserts a new string into a strictly sorted sequence at its place. */
  method InsertSorted(s: seq<string>, x: string) returns (r: seq<string>)
    requires StrictlySorted(s) && x !in s
    ensures StrictlySorted(r)
    ensures forall t :: t in r <==> t in s || t == x
    ensures |r| == |s| + 1
  {
    var k := 0;
    while k < |s| && LexLess(s[k], x)
      invariant 0 <= k <= |s|
      invariant forall m :: 0 <= m < k ==> LexLess(s[m], x)
    {
      k := k + 1;
    }
    if k < |s| {
      LexTotal(s[k], x);
      forall m | k <= m < |s| ensures LexLess(x, s[m]) {
        if m > k { LexTransitive(x, s[k], s[m]); }
      }
    }
    r := s[..k] + [x] + s[k..];
    forall i, j | 0 <= i < j < |r| ensures LexLess(r[i], r[j]) {
      if j < k {
        assert r[i] == s[i] && r[j] == s[j];
      } else if j == k {
        assert r[i] == s[i];
      } else if i < k {
        assert r[i] == s[i] && r[j] == s[j - 1];
        LexTransitive(s[i], x, s[j - 1]);
      } else if i == k {
        assert r[j] == s[j - 1];
      } else {
        assert r[i] == s[i - 1] && r[j] == s[j - 1];
      }
    }
    assert forall t :: t in r <==> t in s[..k] || t == x || t in s[k..];
    assert s == s[..k] + s[k..];
  }

  /** `updateTagFilter`'s tag list: a Set filled by visiting every tag of
      every note, then `Array.from(...).sort()`. The result holds each tag
      in use exactly once, in ascending order. */
  method DistinctSortedTags(notes: seq<Note>) returns (tags: seq<string>)
    ensures StrictlySorted(tags)
    ensures forall t :: t in tags <==> TagInUse(notes, t)
  {
    var all: seq<string> := [];
    var i := 0;
    while i < |notes|
      invariant 0 <= i <= |notes|
      invariant Distinct(all)
      invariant forall t :: t in all <==> TagInUse(notes[..i], t)
    {
      var j := 0;
      while j < |notes[i].tags|
        invariant 0 <= j <= |notes[i].tags|
        invariant Distinct(all)
        invariant forall t :: t in all <==> TagInUse(notes[..i], t) || t in notes[i].tags[..j]
      {
        var tag := notes[i].tags[j];
        if tag !in all {
          all := all + [tag];
        }
        assert notes[i].tags[..j + 1] == notes[i].tags[..j] + [tag];
        j := j + 1;
      }
      assert notes[i].tags[..j] == notes[i].tags;
      forall t ensures TagInUse(notes[..i + 1], t) <==> TagInUse(notes[..i], t) || t in notes[i].tags {
        TagInUseStep(notes, i, t);
      }
      i := i + 1;
    }
    assert notes[..i] == notes;
    tags := [];
    var k := 0;
    while k < |all|
      invariant 0 <= k <= |all|
      invariant StrictlySorted(tags)
      invariant forall t :: t in tags <==> t in all[..k]
    {
      assert all[k] !in all[..k];
      tags := InsertSorted(tags, all[k]);
      assert all[..k + 1] == all[..k] + [all[k]];
      k := k + 1;
    }
    assert all[..k] == all;
  }

  /** Sequences with the same elements are both empty or both not. */
  lemma SameElementsEmpty(a: seq<string>, b: seq<string>)
    requires forall t :: t in a <==> t in b
    ensures a == [] <==> b == []
  {
    if a != [] { assert a[0] in b; }
    if b != [] { assert b[0] in a; }
  }

  /** Two strictly sorted sequences with the same elements are equal: the
      tag list does not depend on how it was built. */
  lemma {:induction false} StrictlySortedUnique(a: seq<string>, b: seq<string>)
    requires StrictlySorted(a) && StrictlySorted(b)
    requires forall t :: t in a <==> t in b
    ensures a == b
    decreases |a|
  {
    SameElementsEmpty(a, b);
    if a != [] {
      assert a[0] in b && b[0] in a;
      var i :| 0 <= i < |a| && a[i] == b[0];
      var j :| 0 <= j < |b| && b[j] == a[0];
      if i != 0 {
        assert LexLess(a[0], b[0]);
        if j != 0 {
          assert LexLess(b[0], a[0]);
          LexAsymmetric(a[0], b[0]);
        }
      }
      assert a[0] == b[0];
      forall t ensures t in a[1..] <==> t in b[1..] {
        LexIrreflexive(a[0]);
        if t in a[1..] {
          var k :| 1 <= k < |a| && a[k] == t;
          assert LexLess(a[0], t);
          assert t in b && t != b[0];
        }
        if t in b[1..] {
          var k :| 1 <= k < |b| && b[k] == t;
          assert LexLess(b[0], t);
          assert t in a && t != a[0];
        }
      }
      StrictlySortedUnique(a[1..], b[1..]);
      assert a == [a[0]] + a[1..] && b == [b[0]] + b[1..];
    }
  }

  /** The tag list ignores the order of the notes: collections that are
      permutations of each other give the same list. */
  lemma TagIndexIgnoresNoteOrder(n1: seq<Note>, n2: seq<Note>, r1: seq<string>, r2: seq<string>)
    requires multiset(n1) == multiset(n2)
    requires StrictlySorted(r1) && forall t :: t in r1 <==> TagInUse(n1, t)
    requires StrictlySorted(r2) && forall t :: t in r2 <==> TagInUse(n2, t)
    ensures r1 == r2
  {
    forall t ensures t in r1 <==> t in r2 {
      if TagInUse(n1, t) {
        var i :| 0 <= i < |n1| && t in n1[i].tags;
        assert n1[i] in multiset(n2);
        var j :| 0 <= j < |n2| && n2[j] == n1[i];
      }
      if TagInUse(n2, t) {
        var j :| 0 <= j < |n2| && t in n2[j].tags;
        assert n2[j] in multiset(n1);
        var i :| 0 <= i < |n1| && n1[i] == n2[j];
      }
    }
    StrictlySortedUnique(r1, r2);
  }
}
