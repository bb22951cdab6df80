/**
  The split of the global project listing into grouped and ungrouped
  projects: the union of the ids returned by the per-group listings, and the
  order-preserving filter `[p for p in all_projects if p['id'] not in ids]`.
  Ids are compared as they come, without any normalisation.
 */
module Partition {
  import opened Records

  /** The ids of a listing, as `set.update(p['id'] for p in projects)` adds them. */
  function IdsOf(projects: seq<Project>): (ids: set<int>)
    ensures forall p :: p in projects ==> p.id in ids
    ensures forall id :: id in ids ==> exists p :: p in projects && p.id == id
  {
    set p | p in projects :: p.id
  }

  /** The projects of `all` whose id is not in `ids`, in their listing order. */
  function Ungrouped(all: seq<Project>, ids: set<int>): (r: seq<Project>)
    ensures |r| <= |all|
    ensures forall p :: p in r <==> p in all && p.id !in ids
  {
    if all == [] then []
    else
      assert all == [all[0]] + all[1..];
      (if all[0].id in ids then [] else [all[0]]) + Ungrouped(all[1..], ids)
  }

  /** The ids of two listings one after the other are the ids of each, as the
      `set.update` over successive listings accumulates them. */
  lemma IdsOfConcat(a: seq<Project>, b: seq<Project>)
    ensures IdsOf(a + b) == IdsOf(a) + IdsOf(b)
  {
    forall id | id in IdsOf(a + b) ensures id in IdsOf(a) + IdsOf(b) {
      var p :| p in a + b && p.id == id;
    }
  }

  /** The complementary filter: the projects of `all` whose id is in `ids`. */
  function Grouped(all: seq<Project>, ids: set<int>): seq<Project> {
    if all == [] then []
    else (if all[0].id in ids then [all[0]] else []) + Grouped(all[1..], ids)
  }

  /** `a` is `b` with some elements left out, the rest in the same order. */
  predicate IsSubsequence<T(==)>(a: seq<T>, b: seq<T>)
    decreases |b|
  {
    a == [] || (b != [] && if a[0] == b[0] then IsSubsequence(a[1..], b[1..]) else IsSubsequence(a, b[1..]))
  }

  /** The filter keeps the global listing's order. */
  lemma {:induction false} UngroupedIsSubsequence(all: seq<Project>, ids: set<int>)
    ensures IsSubsequence(Ungrouped(all, ids), all)
  {
    if all != [] {
      UngroupedIsSubsequence(all[1..], ids);
      var rest := Ungrouped(all[1..], ids);
      if all[0].id in ids {
        assert Ungrouped(all, ids) == rest;
        SubsequenceOfTail(rest, all);
      } else {
        assert Ungrouped(all, ids) == [all[0]] + rest;
        assert ([all[0]] + rest)[1..] == rest;
      }
    }
  }

  /** A subsequence of the tail of `b` is a subsequence of `b`. */
  lemma {:induction false} SubsequenceOfTail<T>(a: seq<T>, b: seq<T>)
    requires b != [] && IsSubsequence(a, b[1..])
    ensures IsSubsequence(a, b)
    decreases |b|, 0
  {
    if a != [] && a[0] == b[0] {
      // a[0] also starts the subsequence inside b[1..]; drop it on both sides
      SubsequenceDropHead(a, b[1..]);
    }
  }

  /** Dropping the head of a non-empty subsequence keeps it a subsequence. */
  lemma {:induction false} SubsequenceDropHead<T>(a: seq<T>, b: seq<T>)
    requires a != [] && IsSubsequence(a, b)
    ensures IsSubsequence(a[1..], b)
    decreases |b|, 1
  {
    assert b != [];
    if a[0] == b[0] {
      if a[1..] != [] {
        SubsequenceOfTail(a[1..], b);
      }
    } else {
      SubsequenceDropHead(a, b[1..]);
      if a[1..] != [] {
        SubsequenceOfTail(a[1..], b);
      }
    }
  }

  /** Grouped and ungrouped projects together are the global listing, each
      project once: a partition of it as a multiset. */
  lemma {:induction false} PartitionIsSplit(all: seq<Project>, ids: set<int>)
    ensures multiset(Grouped(all, ids)) + multiset(Ungrouped(all, ids)) == multiset(all)
    ensures |Grouped(all, ids)| + |Ungrouped(all, ids)| == |all|
  {
    if all != [] {
      PartitionIsSplit(all[1..], ids);
      assert all == [all[0]] + all[1..];
    }
  }

  /** Cover and disjointness on ids: every globally listed id is grouped or
      belongs to an ungrouped project, and no ungrouped project has a grouped id. */
  lemma PartitionCoversIds(all: seq<Project>, ids: set<int>)
    ensures IdsOf(all) <= ids + IdsOf(Ungrouped(all, ids))
    ensures IdsOf(Ungrouped(all, ids)) !! ids
  {
  }
}
