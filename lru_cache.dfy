/**
 * `LruCache`: a cache of unpacked books bounded by the total size of their
 * contents. Every book has a rank; a hit moves the book to the highest rank,
 * and a miss evicts books from the lowest rank up until the new one fits.
 * The `std::map<int, BookPtr>` is a sequence of entries in ascending rank.
 */
module LruCache {
  datatype Book = Book(name: string, content: string)

  datatype Entry = Entry(rank: int, book: Book)

  /** Total size of the contents held by `entries`. */
  function Size(entries: seq<Entry>): nat
  {
    if entries == [] then 0 else |entries[0].book.content| + Size(entries[1..])
  }

  lemma {:induction false} SizeAppend(a: seq<Entry>, b: seq<Entry>)
    ensures Size(a + b) == Size(a) + Size(b)
  {
    if a != [] {
      assert (a + b)[0] == a[0] && (a + b)[1..] == a[1..] + b;
      SizeAppend(a[1..], b);
    } else {
      assert a + b == b;
    }
  }

  /** Ranks strictly increase along the map. */
  predicate Ascending(entries: seq<Entry>)
  {
    forall i, j :: 0 <= i < j < |entries| ==> entries[i].rank < entries[j].rank
  }

  /** No two entries hold books of the same name. */
  predicate DistinctNames(entries: seq<Entry>)
  {
    forall i, j :: 0 <= i < j < |entries| ==> entries[i].book.name != entries[j].book.name
  }

  /** The entries without the one at `i`. */
  function Without(entries: seq<Entry>, i: nat): seq<Entry>
    requires i < |entries|
  {
    entries[..i] + entries[i + 1..]
  }

  lemma SizeWithout(entries: seq<Entry>, i: nat)
    requires i < |entries|
    ensures Size(entries) == Size(Without(entries, i)) + |entries[i].book.content|
  {
    assert entries == entries[..i] + ([entries[i]] + entries[i + 1..]);
    SizeAppend(entries[..i], [entries[i]] + entries[i + 1..]);
    SizeAppend(entries[..i], entries[i + 1..]);
    assert Size([entries[i]] + entries[i + 1..]) == |entries[i].book.content| + Size(entries[i + 1..]) by {
      assert ([entries[i]] + entries[i + 1..])[1..] == entries[i + 1..];
    }
  }

  /** The books named in `entries`. */
  function Names(entries: seq<Entry>): set<string>
  {
    set i | 0 <= i < |entries| :: entries[i].book.name
  }

  /** Where the book called `name` sits, or -1 when it is not cached. */
  function IndexOf(entries: seq<Entry>, name: string): (i: int)
    ensures -1 <= i < |entries|
    ensures i == -1 <==> name !in Names(entries)
    ensures i >= 0 ==> entries[i].book.name == name && forall k :: 0 <= k < i ==> entries[k].book.name != name
  {
    if entries == [] then -1
    else if entries[0].book.name == name then 0
    else
      var i := IndexOf(entries[1..], name);
      assert Names(entries) == {entries[0].book.name} + Names(entries[1..]) by {
        forall n | n in Names(entries) ensures n in {entries[0].book.name} + Names(entries[1..]) {
          var k :| 0 <= k < |entries| && entries[k].book.name == n;
          if k > 0 { assert entries[1..][k - 1] == entries[k]; }
        }
      }
      if i == -1 then -1 else i + 1
  }

  /** How many of the lowest-rank entries must go for `bookSize` more to fit in `maxMemory`. */
  function Evicted(entries: seq<Entry>, bookSize: nat, maxMemory: nat): (k: nat)
    ensures k <= |entries|
  {
    if Size(entries) + bookSize <= maxMemory || entries == [] then 0
    else 1 + Evicted(entries[1..], bookSize, maxMemory)
  }

  /** The highest rank held plus one, or 0 for an empty map. */
  function NextRank(entries: seq<Entry>): int
  {
    if entries == [] then 0 else entries[|entries| - 1].rank + 1
  }

  /** The cache after `GetBook(name)`, when `UnpackBook(name)` would give `content`. */
  function Access(entries: seq<Entry>, name: string, content: string, maxMemory: nat): seq<Entry>
  {
    var i := IndexOf(entries, name);
    if i >= 0 then
      if i == |entries| - 1 then entries
      else Without(entries, i) + [Entry(NextRank(entries), entries[i].book)]
    else if |content| > maxMemory then entries
    else
      var kept := entries[Evicted(entries, |content|, maxMemory)..];
      kept + [Entry(NextRank(kept), Book(name, content))]
  }

  lemma {:induction false} EvictedFits(entries: seq<Entry>, bookSize: nat, maxMemory: nat)
    requires bookSize <= maxMemory
    ensures var k := Evicted(entries, bookSize, maxMemory);
      Size(entries[k..]) + bookSize <= maxMemory &&
      forall j :: 0 <= j < k ==> Size(entries[j..]) + bookSize > maxMemory
  {
    if !(Size(entries) + bookSize <= maxMemory || entries == []) {
      EvictedFits(entries[1..], bookSize, maxMemory);
      var k := Evicted(entries, bookSize, maxMemory);
      assert entries[k..] == entries[1..][k - 1..];
      forall j | 0 < j < k ensures Size(entries[j..]) + bookSize > maxMemory {
        assert entries[j..] == entries[1..][j - 1..];
      }
    }
  }

  /** After any access, the cached contents still fit in `maxMemory`. */
  lemma AccessFits(entries: seq<Entry>, name: string, content: string, maxMemory: nat)
    requires Size(entries) <= maxMemory
    ensures Size(Access(entries, name, content, maxMemory)) <= maxMemory
  {
    var i := IndexOf(entries, name);
    if i >= 0 {
      if i != |entries| - 1 {
        SizeWithout(entries, i);
        SizeAppend(Without(entries, i), [Entry(NextRank(entries), entries[i].book)]);
        assert Size([Entry(NextRank(entries), entries[i].book)]) == |entries[i].book.content|;
      }
    } else if |content| <= maxMemory {
      EvictedFits(entries, |content|, maxMemory);
      var kept := entries[Evicted(entries, |content|, maxMemory)..];
      SizeAppend(kept, [Entry(NextRank(kept), Book(name, content))]);
      assert Size([Entry(NextRank(kept), Book(name, content))]) == |content|;
    }
  }

  /** Ranks stay strictly ascending and names distinct. */
  lemma AccessKeepsOrder(entries: seq<Entry>, name: string, content: string, maxMemory: nat)
    requires Ascending(entries) && DistinctNames(entries)
    ensures Ascending(Access(entries, name, content, maxMemory))
    ensures DistinctNames(Access(entries, name, content, maxMemory))
  {
    var i := IndexOf(entries, name);
    if i >= 0 {
      if i != |entries| - 1 {
        var w := Without(entries, i);
        WithoutKeepsOrder(entries, i);
        assert entries[|entries| - 1] == w[|w| - 1];
        SnocKeepsOrder(w, Entry(NextRank(entries), entries[i].book));
      }
    } else if |content| <= maxMemory {
      var k := Evicted(entries, |content|, maxMemory);
      var kept := entries[k..];
      SuffixKeepsOrder(entries, k, name);
      SnocKeepsOrder(kept, Entry(NextRank(kept), Book(name, content)));
    }
  }

  lemma SnocKeepsOrder(w: seq<Entry>, e: Entry)
    requires Ascending(w) && DistinctNames(w) && e.book.name !in Names(w)
    requires w != [] ==> w[|w| - 1].rank < e.rank
    ensures Ascending(w + [e]) && DistinctNames(w + [e])
  {
    var r := w + [e];
    forall i, j | 0 <= i < j < |r| ensures r[i].rank < r[j].rank && r[i].book.name != r[j].book.name {
      if j == |w| {
        assert r[i] == w[i];
        if i < |w| - 1 {
          assert w[i].rank < w[|w| - 1].rank;
        }
      } else {
        assert r[i] == w[i] && r[j] == w[j];
      }
    }
  }

  lemma WithoutKeepsOrder(entries: seq<Entry>, i: nat)
    requires Ascending(entries) && DistinctNames(entries) && i < |entries|
    ensures Ascending(Without(entries, i)) && DistinctNames(Without(entries, i))
    ensures entries[i].book.name !in Names(Without(entries, i))
  {
    var w := Without(entries, i);
    assert forall j :: 0 <= j < |w| ==> w[j] == entries[if j < i then j else j + 1];
    forall a, b | 0 <= a < b < |w| ensures w[a].rank < w[b].rank && w[a].book.name != w[b].book.name {
      var a', b' := if a < i then a else a + 1, if b < i then b else b + 1;
      assert w[a] == entries[a'] && w[b] == entries[b'] && a' < b';
    }
    forall j | 0 <= j < |w| ensures w[j].book.name != entries[i].book.name {
      var j' := if j < i then j else j + 1;
      assert w[j] == entries[j'] && j' != i;
    }
  }

  lemma SuffixKeepsOrder(entries: seq<Entry>, k: nat, name: string)
    requires Ascending(entries) && DistinctNames(entries) && k <= |entries| && name !in Names(entries)
    ensures Ascending(entries[k..]) && DistinctNames(entries[k..]) && name !in Names(entries[k..])
  {
    var w := entries[k..];
    forall a, b | 0 <= a < b < |w| ensures w[a].rank < w[b].rank && w[a].book.name != w[b].book.name {
      assert w[a] == entries[k + a] && w[b] == entries[k + b];
    }
    forall j | 0 <= j < |w| ensures w[j].book.name != name {
      assert w[j] == entries[k + j];
    }
  }

  /** The book just asked for holds the highest rank, unless it was too large to cache. */
  lemma AccessMostRecent(entries: seq<Entry>, name: string, content: string, maxMemory: nat)
    requires name in Names(entries) || |content| <= maxMemory
    ensures var r := Access(entries, name, content, maxMemory);
      r != [] && r[|r| - 1].book.name == name
  {
  }

  class LruCache {
    /** `IBooksUnpacker::UnpackBook`: the content of the book of a given name. */
    const unpack: string -> string
    /** `settings_.max_memory`. */
    const maxMemory: nat
    /** `cache_`, in ascending rank. */
    var entries: seq<Entry>
    /** `size_`. */
    var size: nat

    ghost predicate Valid()
      reads this
    {
      Ascending(entries) && DistinctNames(entries) &&
      size == Size(entries) && size <= maxMemory
    }

    constructor (unpack: string -> string, maxMemory: nat)
      ensures Valid() && this.unpack == unpack && this.maxMemory == maxMemory && entries == []
    {
      this.unpack := unpack;
      this.maxMemory := maxMemory;
      entries := [];
      size := 0;
    }

    /** The loop over `cache_` in ascending rank that looks for the book called `name`. */
    method Find(name: string) returns (index: int)
      requires Valid()
      ensures index == IndexOf(entries, name)
    {
      index := 0;
      while index < |entries|
        invariant 0 <= index <= |entries|
        invariant forall k :: 0 <= k < index ==> entries[k].book.name != name
      {
        if entries[index].book.name == name {
          return;
        }
        index := index + 1;
      }
      index := -1;
    }

    /** The eviction loop: drops the lowest ranks until `bookSize` more fits. */
    method Evict(bookSize: nat)
      requires Valid() && bookSize <= maxMemory
      modifies this
      ensures Valid() && size + bookSize <= maxMemory
      ensures entries == old(entries)[Evicted(old(entries), bookSize, maxMemory)..]
    {
      ghost var k := 0;
      while size + bookSize > maxMemory
        invariant Valid() && k <= |old(entries)| && entries == old(entries)[k..]
        invariant Evicted(old(entries), bookSize, maxMemory) == k + Evicted(entries, bookSize, maxMemory)
        decreases |entries|
      {
        assert old(entries)[k..][1..] == old(entries)[k + 1..];
        size := size - |entries[0].book.content|;
        entries := entries[1..];
        k := k + 1;
      }
    }

    /** A hit on the entry at `i`: it takes the rank above the highest, unless it already has the highest. */
    method Promote(i: nat)
      requires Valid() && i < |entries|
      modifies this
      ensures Valid()
      ensures entries == Access(old(entries), old(entries)[i].book.name, unpack(old(entries)[i].book.name), maxMemory)
    {
      var name := entries[i].book.name;
      assert IndexOf(entries, name) == i by {
        var j := IndexOf(entries, name);
        assert j >= 0;
        assert !(j < i) && !(i < j);
      }
      if i != |entries| - 1 {
        var top := Entry(NextRank(entries), entries[i].book);
        SizeWithout(entries, i);
        SizeAppend(Without(entries, i), [top]);
        assert Size([top]) == |top.book.content|;
        AccessKeepsOrder(entries, name, unpack(name), maxMemory);
        entries := Without(entries, i) + [top];
      }
    }

    /** A miss for a book that fits: room is made and the book comes in on top. */
    method Admit(book: Book)
      requires Valid() && book.name !in Names(entries) && |book.content| <= maxMemory
      modifies this
      ensures Valid()
      ensures entries == Access(old(entries), book.name, book.content, maxMemory)
    {
      AccessKeepsOrder(entries, book.name, book.content, maxMemory);
      AccessFits(entries, book.name, book.content, maxMemory);
      Evict(|book.content|);
      var rank := if entries == [] then 0 else entries[|entries| - 1].rank + 1;
      SizeAppend(entries, [Entry(rank, book)]);
      assert Size([Entry(rank, book)]) == |book.content|;
      entries := entries + [Entry(rank, book)];
      size := size + |book.content|;
    }

    /** `GetBook`: the book called `name`, from the cache or unpacked, and the cache updated. */
    method GetBook(name: string) returns (book: Book)
      requires Valid()
      modifies this
      ensures Valid()
      ensures book.name == name
      ensures name in Names(old(entries)) ==> book == old(entries)[IndexOf(old(entries), name)].book
      ensures name !in Names(old(entries)) ==> book.content == unpack(name)
      ensures entries == Access(old(entries), name, unpack(name), maxMemory)
    {
      var i := Find(name);
      if i >= 0 {
        book := entries[i].book;
        Promote(i);
        return;
      }
      book := Book(name, unpack(name));
      if |book.content| > maxMemory {
        return;
      }
      Admit(book);
    }
  }
}
