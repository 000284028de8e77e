/**
 * The project gallery of the portfolio page: the tag vocabulary offered by the
 * filter chips, the tag filter and the optional sort by project name.
 */
module Catalog {
  import opened Seqs

  /** One project card. */
  datatype Project = Project(
    id: string,
    name: string,
    oneLiner: string,
    techStack: seq<string>,
    tags: seq<string>,
    thumbnailUrl: string,
    githubUrl: string,
    liveUrl: string)

  /**
   * The sort selector's value that sorts by name; the selector's other
   * value, "featured", and any other string keep the authored order.
   */
  const NameMode: string := "name"

  /** The filter value that means "no filtering". */
  const AllTag: string := "All"

  // ---------------------------------------------------------------------------
  // Tag vocabulary
  // ---------------------------------------------------------------------------

  /** Every project's tags, concatenated in project order. */
  function FlatTags(projects: seq<Project>): (r: seq<string>)
  {
    if projects == [] then []
    else FlatTags(projects[..|projects| - 1]) + projects[|projects| - 1].tags
  }

  /** A tag occurs in the concatenation exactly when some project carries it. */
  lemma {:induction false} FlatTagsMembership(projects: seq<Project>, t: string)
    ensures t in FlatTags(projects) <==> exists k :: 0 <= k < |projects| && t in projects[k].tags
  {
    if projects != [] {
      var init := projects[..|projects| - 1];
      FlatTagsMembership(init, t);
      if exists k :: 0 <= k < |projects| && t in projects[k].tags {
        var k :| 0 <= k < |projects| && t in projects[k].tags;
        if k < |init| {
          assert init[k] == projects[k];
        }
      }
      if exists k :: 0 <= k < |init| && t in init[k].tags {
        var k :| 0 <= k < |init| && t in init[k].tags;
        assert projects[k] == init[k];
      }
    }
  }

  /** The filter vocabulary: "All" first, then each tag once, in order of first appearance. */
  function Vocabulary(projects: seq<Project>): (r: seq<string>)
  {
    Dedup([AllTag] + FlatTags(projects))
  }

  /**
   * Adds each of `ts` in turn to the insertion-ordered set `tags`, which
   * holds the distinct elements of `seen` in first-seen order.
   */
  method AddEach(tags: seq<string>, ghost seen: seq<string>, ts: seq<string>) returns (tags': seq<string>)
    requires tags == Dedup(seen)
    ensures tags' == Dedup(seen + ts)
  {
    tags' := tags;
    var j := 0;
    assert seen + ts[..0] == seen;
    while j < |ts|
      invariant 0 <= j <= |ts|
      invariant tags' == Dedup(seen + ts[..j])
    {
      ghost var prefix := seen + ts[..j];
      assert (prefix + [ts[j]])[..|prefix|] == prefix;
      assert seen + ts[..j + 1] == prefix + [ts[j]];
      DedupMembership(prefix, ts[j]);
      if ts[j] !in tags' {
        tags' := tags' + [ts[j]];
      }
      j := j + 1;
    }
    assert ts[..j] == ts;
  }

  /**
   * Builds the vocabulary the way the page does: a Set seeded with "All",
   * to which every tag of every project is added in turn.
   */
  method AllTags(projects: seq<Project>) returns (tags: seq<string>)
    ensures tags == Vocabulary(projects)
    ensures |tags| > 0 && tags[0] == AllTag
    ensures NoDuplicates(tags)
    ensures forall t :: t in tags <==>
      t == AllTag || exists k :: 0 <= k < |projects| && t in projects[k].tags
  {
    tags := [AllTag];
    assert tags == Dedup([AllTag] + FlatTags(projects[..0]));
    var i := 0;
    while i < |projects|
      invariant 0 <= i <= |projects|
      invariant tags == Dedup([AllTag] + FlatTags(projects[..i]))
    {
      tags := AddEach(tags, [AllTag] + FlatTags(projects[..i]), projects[i].tags);
      assert projects[..i + 1][..i] == projects[..i];
      assert [AllTag] + FlatTags(projects[..i]) + projects[i].tags == [AllTag] + FlatTags(projects[..i + 1]);
      i := i + 1;
    }
    assert projects[..i] == projects;
    VocabularyProperties(projects);
  }

  /**
   * The vocabulary starts with "All", has no duplicates, holds exactly "All"
   * and the tags of the projects, and lists them in first-seen order.
   */
  lemma VocabularyProperties(projects: seq<Project>)
    ensures var v := Vocabulary(projects);
      && |v| > 0 && v[0] == AllTag
      && NoDuplicates(v)
      && (forall t :: t in v <==>
            t == AllTag || exists k :: 0 <= k < |projects| && t in projects[k].tags)
  {
    var s := [AllTag] + FlatTags(projects);
    var v := Dedup(s);
    DedupHead(s);
    DedupNoDuplicates(s);
    forall t
      ensures t in v <==> t == AllTag || exists k :: 0 <= k < |projects| && t in projects[k].tags
    {
      FlatTagsMembership(projects, t);
      DedupMembership(s, t);
    }
  }

  /** Tags are listed in the order in which they are first met, "All" counting as met first. */
  lemma VocabularyFirstSeenOrder(projects: seq<Project>)
    ensures forall i :: 0 <= i < |Vocabulary(projects)| ==>
      Vocabulary(projects)[i] in [AllTag] + FlatTags(projects)
    ensures forall i, j :: 0 <= i < j < |Vocabulary(projects)| ==>
      FirstIndex([AllTag] + FlatTags(projects), Vocabulary(projects)[i]) <
      FirstIndex([AllTag] + FlatTags(projects), Vocabulary(projects)[j])
  {
    DedupFirstSeenOrder([AllTag] + FlatTags(projects));
  }

  // ---------------------------------------------------------------------------
  // Tag filter
  // ---------------------------------------------------------------------------

  /** Whether a project carries `tag` (Array.prototype.includes on its tags). */
  function Tagged(tag: string): (f: Project -> bool)
  {
    (p: Project) => tag in p.tags
  }

  /** The projects shown for a tag filter: all of them for "All", else those carrying the tag. */
  function SelectByTag(source: seq<Project>, tagFilter: string): (r: seq<Project>)
  {
    if tagFilter == AllTag then source else Filter(source, Tagged(tagFilter))
  }

  /**
   * For "All" the selection is the source itself, element for element. For any
   * other tag it is the subsequence of the source, in source order, at exactly
   * the positions whose project carries the tag.
   */
  lemma SelectByTagExact(source: seq<Project>, tagFilter: string)
    ensures tagFilter == AllTag ==> SelectByTag(source, tagFilter) == source
    ensures tagFilter != AllTag ==>
      IsSelection(SelectByTag(source, tagFilter), source,
                  KeptIndices(source, Tagged(tagFilter)), Tagged(tagFilter))
    ensures forall p :: p in SelectByTag(source, tagFilter) <==>
      p in source && (tagFilter == AllTag || tagFilter in p.tags)
  {
    if tagFilter != AllTag {
      FilterIsSelection(source, Tagged(tagFilter));
      forall p
        ensures p in SelectByTag(source, tagFilter) <==> p in source && tagFilter in p.tags
      {
        FilterMembership(source, Tagged(tagFilter), p);
      }
    }
  }

  // ---------------------------------------------------------------------------
  // Sort by name
  // ---------------------------------------------------------------------------

  // localeCompare is modelled by a collation key: `a.localeCompare(b) <= 0`
  // exactly when `key(a) <= key(b)`. Every total preorder on strings (a
  // countable set) is of this form for some key into the rationals.

  /** Project names never decrease along `s`. */
  ghost predicate Sorted(s: seq<Project>, key: string -> real)
  {
    forall i, j :: 0 <= i < j < |s| ==> key(s[i].name) <= key(s[j].name)
  }

  /** Whether a project's name collates equal to `n`. */
  function SameName(n: string, key: string -> real): (f: Project -> bool)
  {
    (p: Project) => key(p.name) == key(n)
  }

  /** The projects of `s` whose names collate equal to `n`, in their order in `s`. */
  function NameClass(s: seq<Project>, n: string, key: string -> real): (r: seq<Project>)
  {
    Filter(s, SameName(n, key))
  }

  /**
   * `x` appended to `t` and moved left past every project whose name collates
   * strictly after its own: one step of a stable insertion sort.
   */
  function InsertLast(t: seq<Project>, x: Project, key: string -> real): (r: seq<Project>)
  {
    if t == [] || key(t[|t| - 1].name) <= key(x.name) then t + [x]
    else InsertLast(t[..|t| - 1], x, key) + [t[|t| - 1]]
  }

  /** Stable sort by name: each project in turn inserted into the sorted prefix. */
  function SortByName(s: seq<Project>, key: string -> real): (r: seq<Project>)
  {
    if s == [] then [] else InsertLast(SortByName(s[..|s| - 1], key), s[|s| - 1], key)
  }

  /**
   * Where `x` lands: after the prefix `t[..j]` when the project before that
   * point does not collate after `x` and every later one does.
   */
  lemma {:induction false} InsertLastAt(t: seq<Project>, x: Project, key: string -> real, j: nat)
    requires j <= |t|
    requires j == 0 || key(t[j - 1].name) <= key(x.name)
    requires forall k :: j <= k < |t| ==> key(t[k].name) > key(x.name)
    ensures InsertLast(t, x, key) == t[..j] + [x] + t[j..]
  {
    if t == [] {
    } else if key(t[|t| - 1].name) <= key(x.name) {
      assert j == |t|;
    } else {
      var init := t[..|t| - 1];
      assert j < |t|;
      InsertLastAt(init, x, key, j);
      assert init[..j] == t[..j];
      assert init[j..] + [t[|t| - 1]] == t[j..];
    }
  }

  /** Inserting adds exactly `x`. */
  lemma {:induction false} InsertLastMultiset(t: seq<Project>, x: Project, key: string -> real)
    ensures multiset(InsertLast(t, x, key)) == multiset(t) + multiset{x}
  {
    if t != [] && key(t[|t| - 1].name) > key(x.name) {
      var init := t[..|t| - 1];
      assert t == init + [t[|t| - 1]];
      InsertLastMultiset(init, x, key);
    }
  }

  /** Every name in `s` collates at or before `bound`. */
  ghost predicate AllAtMost(s: seq<Project>, bound: real, key: string -> real)
  {
    forall i :: 0 <= i < |s| ==> key(s[i].name) <= bound
  }

  /** Inserting a project below a bound into projects below it stays below it. */
  lemma {:induction false} InsertLastAtMost(t: seq<Project>, x: Project, bound: real, key: string -> real)
    requires AllAtMost(t, bound, key) && key(x.name) <= bound
    ensures AllAtMost(InsertLast(t, x, key), bound, key)
  {
    if t != [] && key(t[|t| - 1].name) > key(x.name) {
      var init := t[..|t| - 1];
      assert AllAtMost(init, bound, key) by {
        forall i | 0 <= i < |init|
          ensures key(init[i].name) <= bound
        {
          assert init[i] == t[i];
        }
      }
      InsertLastAtMost(init, x, bound, key);
    }
  }

  /** Inserting into a sorted sequence keeps it sorted. */
  lemma {:induction false} InsertLastSorted(t: seq<Project>, x: Project, key: string -> real)
    requires Sorted(t, key)
    ensures Sorted(InsertLast(t, x, key), key)
  {
    if t != [] {
      var init, last := t[..|t| - 1], t[|t| - 1];
      if key(last.name) > key(x.name) {
        var r' := InsertLast(init, x, key);
        var r := r' + [last];
        assert Sorted(init, key) by {
          forall i, j | 0 <= i < j < |init|
            ensures key(init[i].name) <= key(init[j].name)
          {
            assert init[i] == t[i] && init[j] == t[j];
          }
        }
        InsertLastSorted(init, x, key);
        assert AllAtMost(init, key(last.name), key) by {
          forall i | 0 <= i < |init|
            ensures key(init[i].name) <= key(last.name)
          {
            assert init[i] == t[i];
          }
        }
        InsertLastAtMost(init, x, key(last.name), key);
        forall i, j | 0 <= i < j < |r|
          ensures key(r[i].name) <= key(r[j].name)
        {
          assert r[i] == r'[i];
          if j < |r'| {
            assert r[j] == r'[j];
          }
        }
      }
    }
  }

  /**
   * Inserting puts `x` directly before the suffix of `t` whose names all
   * collate after it.
   */
  lemma {:induction false} InsertLastSplit(t: seq<Project>, x: Project, key: string -> real) returns (j: nat)
    ensures j <= |t| && InsertLast(t, x, key) == t[..j] + [x] + t[j..]
    ensures forall k :: j <= k < |t| ==> key(t[k].name) > key(x.name)
  {
    if t == [] || key(t[|t| - 1].name) <= key(x.name) {
      j := |t|;
      assert t[..j] == t;
    } else {
      var init := t[..|t| - 1];
      j := InsertLastSplit(init, x, key);
      assert init[..j] == t[..j];
      assert init[j..] + [t[|t| - 1]] == t[j..];
      forall k | j <= k < |t|
        ensures key(t[k].name) > key(x.name)
      {
        if k < |init| {
          assert t[k] == init[k];
        }
      }
    }
  }

  /** Inserting `x` appends it to its own name class and leaves the other classes alone. */
  lemma {:induction false} InsertLastStable(t: seq<Project>, x: Project, key: string -> real, n: string)
    ensures NameClass(InsertLast(t, x, key), n, key) == NameClass(t, n, key) + NameClass([x], n, key)
  {
    var same := SameName(n, key);
    var j := InsertLastSplit(t, x, key);
    var front, back := t[..j], t[j..];
    assert front + back == t;
    forall i | 0 <= i < |back|
      ensures key(back[i].name) > key(x.name)
    {
      assert back[i] == t[j + i];
    }
    FilterMoveToEnd(front, x, back, same);
  }

  /** The sort is a permutation. */
  lemma {:induction false} SortByNamePermutation(s: seq<Project>, key: string -> real)
    ensures multiset(SortByName(s, key)) == multiset(s)
  {
    if s != [] {
      var init, x := s[..|s| - 1], s[|s| - 1];
      var t := SortByName(init, key);
      SortByNamePermutation(init, key);
      InsertLastMultiset(t, x, key);
      MultisetOfSnoc(s);
    }
  }

  /** The sort orders names by the collation. */
  lemma {:induction false} SortByNameSorted(s: seq<Project>, key: string -> real)
    ensures Sorted(SortByName(s, key), key)
  {
    if s != [] {
      SortByNameSorted(s[..|s| - 1], key);
      InsertLastSorted(SortByName(s[..|s| - 1], key), s[|s| - 1], key);
    }
  }

  /** The sort is stable: projects whose names collate equal keep their relative order. */
  lemma {:induction false} SortByNameStable(s: seq<Project>, key: string -> real, n: string)
    ensures NameClass(SortByName(s, key), n, key) == NameClass(s, n, key)
  {
    if s != [] {
      var init := s[..|s| - 1];
      SortByNameStable(init, key, n);
      InsertLastStable(SortByName(init, key), s[|s| - 1], key, n);
      FilterConcat(init, [s[|s| - 1]], SameName(n, key));
      assert s == init + [s[|s| - 1]];
    }
  }

  /** A sequence already sorted by name is left unchanged. */
  lemma {:induction false} SortByNameOfSorted(s: seq<Project>, key: string -> real)
    requires Sorted(s, key)
    ensures SortByName(s, key) == s
  {
    if s != [] {
      var init := s[..|s| - 1];
      assert Sorted(init, key);
      SortByNameOfSorted(init, key);
      assert init + [s[|s| - 1]] == s;
    }
  }

  /** Sorting an already sorted result again yields the same sequence. */
  lemma SortByNameIdempotent(s: seq<Project>, key: string -> real)
    ensures SortByName(SortByName(s, key), key) == SortByName(s, key)
  {
    SortByNameSorted(s, key);
    SortByNameOfSorted(SortByName(s, key), key);
  }

  /** Removing the last project keeps a sequence sorted. */
  lemma SortedInit(s: seq<Project>, key: string -> real)
    requires Sorted(s, key) && s != []
    ensures Sorted(s[..|s| - 1], key)
  {
  }

  /** The first project of a non-empty sequence belongs to its own name class. */
  lemma ClassOfHead(s: seq<Project>, key: string -> real)
    requires s != []
    ensures NameClass(s, s[0].name, key) != []
  {
    FilterMembership(s, SameName(s[0].name, key), s[0]);
  }

  /**
   * Two sequences sorted by name that agree on every name class are equal:
   * a sorted sequence is determined by the order within its classes.
   */
  lemma {:induction false} SortedByClasses(r: seq<Project>, q: seq<Project>, key: string -> real)
    requires Sorted(r, key) && Sorted(q, key)
    requires forall n :: NameClass(r, n, key) == NameClass(q, n, key)
    ensures r == q
    decreases |r| + |q|
  {
    if r == [] || q == [] {
      if r != [] {
        ClassOfHead(r, key);
        assert false;
      } else if q != [] {
        ClassOfHead(q, key);
        assert false;
      }
    } else {
      var r', y := r[..|r| - 1], r[|r| - 1];
      var q', z := q[..|q| - 1], q[|q| - 1];
      assert r == r' + [y] && q == q' + [z];
      FilterMembership(r, SameName(z.name, key), z);
      FilterMembership(q, SameName(z.name, key), z);
      assert NameClass(r, z.name, key) == NameClass(q, z.name, key);
      var kz :| 0 <= kz < |r| && r[kz] == z;
      FilterMembership(r, SameName(y.name, key), y);
      FilterMembership(q, SameName(y.name, key), y);
      assert NameClass(r, y.name, key) == NameClass(q, y.name, key);
      var ky :| 0 <= ky < |q| && q[ky] == y;
      assert key(y.name) == key(z.name);
      assert SameName(y.name, key)(z);
      FilterSnocLast(r', y, q', z, SameName(y.name, key));
      forall n
        ensures NameClass(r', n, key) == NameClass(q', n, key)
      {
        assert NameClass(r, n, key) == NameClass(q, n, key);
        FilterSnocCancel(r', q', y, SameName(n, key));
      }
      SortedInit(r, key);
      SortedInit(q, key);
      SortedByClasses(r', q', key);
    }
  }

  /**
   * SortByName is the only stable sort by name: every sequence sorted by
   * name whose name classes are those of `s` is SortByName(s). So any stable
   * sort with this comparator, as Array.prototype.sort is, gives this result.
   */
  lemma StableSortUnique(s: seq<Project>, r: seq<Project>, key: string -> real)
    requires Sorted(r, key)
    requires forall n :: NameClass(r, n, key) == NameClass(s, n, key)
    ensures r == SortByName(s, key)
  {
    SortByNameSorted(s, key);
    forall n
      ensures NameClass(r, n, key) == NameClass(SortByName(s, key), n, key)
    {
      SortByNameStable(s, key, n);
    }
    SortedByClasses(r, SortByName(s, key), key);
  }

  /**
   * The insertion as the array pass leaves it: `t[..j]` in place, `x` at `j`
   * and `t[j..]` one place to the right.
   */
  lemma InsertLastShifted(t: seq<Project>, x: Project, key: string -> real, j: nat, u: seq<Project>)
    requires j <= |t| && |u| == |t| + 1
    requires j == 0 || key(t[j - 1].name) <= key(x.name)
    requires forall k :: j <= k < |t| ==> key(t[k].name) > key(x.name)
    requires forall k :: 0 <= k < j ==> u[k] == t[k]
    requires u[j] == x
    requires forall k :: j < k < |u| ==> u[k] == t[k - 1]
    ensures u == InsertLast(t, x, key)
  {
    InsertLastAt(t, x, key, j);
    var v := t[..j] + [x] + t[j..];
    forall k | 0 <= k < |u|
      ensures u[k] == v[k]
    {
      if k < j {
        assert v[k] == t[k];
      } else if j < k {
        assert v[k] == t[k - 1];
      }
    }
  }

  /**
   * One pass of the insertion sort: shifts the run of projects just before
   * `a[i]` that collate strictly after it one place right and drops `a[i]`
   * into the gap.
   */
  method InsertIntoPrefix(a: array<Project>, i: nat, key: string -> real)
    requires i < a.Length
    modifies a
    ensures a[..i + 1] == InsertLast(old(a[..i]), old(a[i]), key)
    ensures forall k :: i < k < a.Length ==> a[k] == old(a[k])
  {
    ghost var t := a[..i];
    var x := a[i];
    var j := i;
    while j > 0 && key(a[j - 1].name) > key(x.name)
      invariant 0 <= j <= i
      invariant forall k :: 0 <= k < j ==> a[k] == t[k]
      invariant forall k :: j < k <= i ==> a[k] == t[k - 1]
      invariant forall k :: i < k < a.Length ==> a[k] == old(a[k])
      invariant forall k :: j <= k < i ==> key(t[k].name) > key(x.name)
    {
      a[j] := a[j - 1];
      j := j - 1;
    }
    a[j] := x;
    InsertLastShifted(t, x, key, j, a[..i + 1]);
  }

  /**
   * Array.prototype.sort with the name comparator, in place: a stable
   * insertion sort whose outcome is SortByName of the original contents.
   */
  method SortInPlace(a: array<Project>, key: string -> real)
    modifies a
    ensures a[..] == SortByName(old(a[..]), key)
  {
    ghost var original := a[..];
    var i := 0;
    while i < a.Length
      invariant 0 <= i <= a.Length
      invariant a[..i] == SortByName(original[..i], key)
      invariant forall k :: i <= k < a.Length ==> a[k] == original[k]
    {
      InsertIntoPrefix(a, i, key);
      assert original[..i + 1][..i] == original[..i];
      i := i + 1;
    }
    assert original[..a.Length] == original;
  }

  // ---------------------------------------------------------------------------
  // The displayed list
  // ---------------------------------------------------------------------------

  /** The displayed list: the tag selection, sorted by name in name mode. */
  function CatalogView(source: seq<Project>, tagFilter: string, sortMode: string,
                       key: string -> real): (view: seq<Project>)
  {
    var list := SelectByTag(source, tagFilter);
    if sortMode == NameMode then SortByName(list, key) else list
  }

  /**
   * The `projects` memo: copy the source, keep the projects carrying the
   * selected tag unless it is "All", and in name mode sort the copy in place.
   */
  method VisibleProjects(source: array<Project>, tagFilter: string, sortMode: string,
                         key: string -> real) returns (view: seq<Project>)
    ensures source[..] == old(source[..])
    ensures view == CatalogView(source[..], tagFilter, sortMode, key)
    ensures multiset(view) == multiset(SelectByTag(source[..], tagFilter))
    ensures forall p :: p in view <==> p in source[..] && (tagFilter == AllTag || tagFilter in p.tags)
    ensures sortMode != NameMode ==> view == SelectByTag(source[..], tagFilter)
    ensures sortMode == NameMode ==> Sorted(view, key)
  {
    var src := source[..];
    var list := new Project[source.Length];
    forall k | 0 <= k < source.Length {
      list[k] := source[k];
    }
    assert list[..] == src;
    if tagFilter != AllTag {
      var kept := Filter(src, Tagged(tagFilter));
      list := new Project[|kept|](k requires 0 <= k < |kept| => kept[k]);
      assert list[..] == kept;
    }
    if sortMode == NameMode {
      SortInPlace(list, key);
    }
    view := list[..];
    assert source[..] == src;
    SelectByTagExact(src, tagFilter);
    if sortMode == NameMode {
      SortByNamePermutation(SelectByTag(src, tagFilter), key);
      forall p
        ensures p in view <==> p in SelectByTag(src, tagFilter)
      {
        assert p in view <==> p in multiset(view);
      }
      SortByNameSorted(SelectByTag(src, tagFilter), key);
    }
  }

  /**
   * In name mode the displayed list is a sorted, stable permutation of the tag
   * selection, and sorting it again leaves it unchanged.
   */
  lemma NameViewProperties(source: seq<Project>, tagFilter: string, key: string -> real)
    ensures var sel, view := SelectByTag(source, tagFilter), CatalogView(source, tagFilter, NameMode, key);
      && multiset(view) == multiset(sel)
      && Sorted(view, key)
      && (forall n :: NameClass(view, n, key) == NameClass(sel, n, key))
      && SortByName(view, key) == view
  {
    var sel := SelectByTag(source, tagFilter);
    SortByNamePermutation(sel, key);
    SortByNameSorted(sel, key);
    SortByNameIdempotent(sel, key);
    forall n
      ensures NameClass(SortByName(sel, key), n, key) == NameClass(sel, n, key)
    {
      SortByNameStable(sel, key, n);
    }
  }
}
