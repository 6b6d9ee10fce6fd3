/**
 The read-only queries over the item collection: filtering on the owning
 address, sorting by `dateAdded` newest first, and truncation to a limit.
 A collection is a sequence of documents in the store's natural order.
 */
module ItemQueries {
  import opened ItemModel

  /** The identifier the store assigns to a document. */
  type Id = nat

  /** A stored document: its identifier and its fields. */
  datatype Doc = Doc(id: Id, item: Item)

  /** How many documents the recent-items query returns at most. */
  const RecentLimit: nat := 3

  function Min(a: int, b: int): int {
    if a <= b then a else b
  }

  /** No identifier occurs twice: each stored document is listed at most once. */
  ghost predicate DistinctIds(s: seq<Doc>) {
    forall i, j :: 0 <= i < j < |s| ==> s[i].id != s[j].id
  }

  /** `find({ address })`: the documents whose owning address is `address`, in collection order. */
  function OwnedBy(docs: seq<Doc>, address: string): (r: seq<Doc>)
    ensures forall d :: d in r <==> d in docs && d.item.address == address
    ensures |r| <= |docs|
    ensures forall d :: d in docs && d.item.address == address ==> multiset(r)[d] == multiset(docs)[d]
  {
    if docs == [] then []
    else
      assert docs == [docs[0]] + docs[1..];
      (if docs[0].item.address == address then [docs[0]] else []) + OwnedBy(docs[1..], address)
  }

  /** Newest first: `dateAdded` never increases along the sequence. */
  ghost predicate NewestFirst(s: seq<Doc>) {
    forall i, j :: 0 <= i < j < |s| ==> s[i].item.dateAdded >= s[j].item.dateAdded
  }

  /**
   Inserts `d` into a newest-first sequence ahead of every document that is
   not newer than it.
   */
  function InsertNewest(d: Doc, s: seq<Doc>): (r: seq<Doc>)
    requires NewestFirst(s)
    ensures NewestFirst(r)
    ensures multiset(r) == multiset(s) + multiset{d}
    ensures |r| == |s| + 1
    ensures forall e :: e in r ==> e == d || e in s
  {
    if s == [] || s[0].item.dateAdded <= d.item.dateAdded then
      [d] + s
    else
      assert s == [s[0]] + s[1..];
      var rest := InsertNewest(d, s[1..]);
      assert forall e :: e in rest ==> s[0].item.dateAdded >= e.item.dateAdded by {
        assert forall j :: 1 <= j < |s| ==> s[0].item.dateAdded >= s[j].item.dateAdded;
      }
      ConsNewest(s[0], rest);
      [s[0]] + rest
  }

  /** A document no older than any in a newest-first sequence can go in front of it. */
  lemma ConsNewest(d: Doc, s: seq<Doc>)
    requires NewestFirst(s)
    requires forall e :: e in s ==> d.item.dateAdded >= e.item.dateAdded
    ensures NewestFirst([d] + s)
  {
    forall i, j | 0 <= i < j < |[d] + s|
      ensures ([d] + s)[i].item.dateAdded >= ([d] + s)[j].item.dateAdded
    {
      assert ([d] + s)[j] == s[j - 1];
      if i > 0 {
        assert ([d] + s)[i] == s[i - 1];
      }
    }
  }

  /** `sort({ dateAdded: -1 })`: a newest-first rearrangement of `s`. */
  function SortNewest(s: seq<Doc>): (r: seq<Doc>)
    ensures NewestFirst(r)
    ensures multiset(r) == multiset(s)
    ensures |r| == |s|
  {
    if s == [] then []
    else
      assert s == [s[0]] + s[1..];
      InsertNewest(s[0], SortNewest(s[1..]))
  }

  /**
   `find({ address }).sort({ dateAdded: -1 }).limit(3)`: as many of the
   owner's documents as the limit allows, newest first, and every owner
   document left out is no newer than the last one returned.
   */
  function Recent(docs: seq<Doc>, address: string): (r: seq<Doc>)
    ensures |r| == Min(RecentLimit, |OwnedBy(docs, address)|)
    ensures forall d :: d in r ==> d in docs && d.item.address == address
    ensures NewestFirst(r)
    ensures forall d :: d in docs && d.item.address == address && d !in r ==>
              |r| == RecentLimit && d.item.dateAdded <= r[|r| - 1].item.dateAdded
    ensures multiset(r) <= multiset(OwnedBy(docs, address))
    ensures DistinctIds(docs) ==> DistinctIds(r)
  {
    var owned := OwnedBy(docs, address);
    NewestPrefix(owned);
    var r := SortNewest(owned)[..Min(RecentLimit, |owned|)];
    OwnedBySubset(docs, address);
    DistinctSubset(owned, docs);
    DistinctSubset(r, owned);
    r
  }

  /** The first `RecentLimit` documents of the newest-first order of `s`, and what they leave out. */
  lemma NewestPrefix(s: seq<Doc>)
    ensures var t := SortNewest(s)[..Min(RecentLimit, |s|)];
      && |t| == Min(RecentLimit, |s|)
      && NewestFirst(t)
      && (forall d :: d in t ==> d in s)
      && (forall d :: d in s && d !in t ==> |t| == RecentLimit && d.item.dateAdded <= t[|t| - 1].item.dateAdded)
      && multiset(t) <= multiset(s)
  {
    var sorted := SortNewest(s);
    var k := Min(RecentLimit, |s|);
    var t := sorted[..k];
    assert sorted == t + sorted[k..];
    SortedPrefixBound(sorted, k);
    SameMembers(s, sorted);
    assert NewestFirst(t) by {
      forall i, j | 0 <= i < j < |t|
        ensures t[i].item.dateAdded >= t[j].item.dateAdded
      {
        assert t[i] == sorted[i] && t[j] == sorted[j];
      }
    }
  }

  /** The owner filter takes each document at most as often as the collection holds it. */
  lemma OwnedBySubset(docs: seq<Doc>, address: string)
    ensures multiset(OwnedBy(docs, address)) <= multiset(docs)
  {
    var r := OwnedBy(docs, address);
    forall d ensures multiset(r)[d] <= multiset(docs)[d] {
      if d !in docs || d.item.address != address {
        assert d !in r;
      }
    }
  }

  /** With distinct identifiers, a document occurs at most once. */
  lemma {:induction false} DistinctOnce(s: seq<Doc>, d: Doc)
    requires DistinctIds(s)
    ensures multiset(s)[d] <= 1
  {
    if s != [] {
      assert s == [s[0]] + s[1..];
      assert DistinctIds(s[1..]);
      DistinctOnce(s[1..], d);
      if d == s[0] {
        assert d !in s[1..];
      }
    }
  }

  /**
   Taking documents from a sequence with distinct identifiers, no more often
   than it holds them, keeps the identifiers distinct.
   */
  lemma DistinctSubset(a: seq<Doc>, b: seq<Doc>)
    requires multiset(a) <= multiset(b)
    ensures DistinctIds(b) ==> DistinctIds(a)
  {
    if !DistinctIds(b) {
      return;
    }
    forall i, j | 0 <= i < j < |a|
      ensures a[i].id != a[j].id
    {
      if a[i] == a[j] {
        assert a == a[..j] + a[j..];
        assert a[i] in a[..j] && a[j] in a[j..];
        assert multiset(a)[a[i]] >= 2;
        DistinctOnce(b, a[i]);
      } else {
        assert a[i] in multiset(b) && a[j] in multiset(b);
        var p :| 0 <= p < |b| && b[p] == a[i];
        var q :| 0 <= q < |b| && b[q] == a[j];
      }
    }
  }

  /** Rearrangements have the same members. */
  lemma SameMembers(a: seq<Doc>, b: seq<Doc>)
    requires multiset(a) == multiset(b)
    ensures forall d :: d in a <==> d in b
  {
    forall d ensures d in a <==> d in b {
      assert d in a <==> d in multiset(a);
      assert d in b <==> d in multiset(b);
    }
  }

  /**
   In a newest-first sequence, an element outside a prefix lies after it,
   so it is no newer than the prefix's last element.
   */
  lemma SortedPrefixBound(s: seq<Doc>, k: nat)
    requires NewestFirst(s) && k <= |s|
    ensures forall d :: d in s[..k] ==> d in s
    ensures forall d :: d in s && d !in s[..k] ==>
              k < |s| && (0 < k ==> d.item.dateAdded <= s[k - 1].item.dateAdded)
  {
  }
}
