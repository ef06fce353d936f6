/**
 * `Database`: records stored by id, with three secondary indices over them:
 * by timestamp, by karma (both ordered multimaps) and by user. The
 * multimaps hold references to the stored records, which never change once
 * stored; here an index is the sequence of the records it refers to, in the
 * multimap's iteration order.
 */
module SecondaryIndex {
  import opened Wrappers

  datatype Record = Record(id: string, title: string, user: string, timestamp: int, karma: int)

  /** The two integer keys a record is indexed by. */
  datatype IntField = Timestamp | Karma

  function Key(r: Record, f: IntField): int
  {
    match f
    case Timestamp => r.timestamp
    case Karma => r.karma
  }

  /** What a scan visits: an inclusive key range, or one user. */
  datatype Query = KeyRange(field: IntField, low: int, high: int) | ByUser(user: string)

  predicate Matches(r: Record, q: Query)
  {
    match q
    case KeyRange(f, low, high) => low <= Key(r, f) <= high
    case ByUser(user) => r.user == user
  }

  /**
   * `index` refers to every stored record exactly once: each entry is the
   * record stored under its id, no id appears twice, and every stored
   * record appears.
   */
  predicate Indexes(index: seq<Record>, data: map<string, Record>)
  {
    EntriesStored(index, data) && DistinctIds(index) && Covers(index, data)
  }

  predicate EntriesStored(index: seq<Record>, data: map<string, Record>)
  {
    forall i :: 0 <= i < |index| ==> index[i].id in data && data[index[i].id] == index[i]
  }

  predicate DistinctIds(index: seq<Record>)
  {
    forall i, j :: 0 <= i < j < |index| ==> index[i].id != index[j].id
  }

  predicate Covers(index: seq<Record>, data: map<string, Record>)
  {
    forall id :: id in data ==> exists i :: 0 <= i < |index| && index[i].id == id
  }

  /** Ascending order of `f`, as a multimap keeps its entries. */
  predicate SortedBy(index: seq<Record>, f: IntField)
  {
    forall i, j :: 0 <= i < j < |index| ==> Key(index[i], f) <= Key(index[j], f)
  }

  /**
   * Where a multimap inserts key `k`: after every entry whose key is at
   * most `k`, so that entries with equal keys stay in insertion order.
   */
  function UpperBound(index: seq<Record>, f: IntField, k: int): (p: nat)
    ensures p <= |index|
    ensures forall i :: 0 <= i < p ==> Key(index[i], f) <= k
    ensures p < |index| ==> k < Key(index[p], f)
  {
    if index == [] || k < Key(index[0], f) then 0 else 1 + UpperBound(index[1..], f, k)
  }

  /** In a sorted index, every entry from the upper bound on has a key above `k`. */
  lemma UpperBoundSplits(index: seq<Record>, f: IntField, k: int)
    requires SortedBy(index, f)
    ensures forall i :: UpperBound(index, f, k) <= i < |index| ==> k < Key(index[i], f)
  {
    var p := UpperBound(index, f, k);
    forall i | p <= i < |index|
      ensures k < Key(index[i], f)
    {
      assert Key(index[p], f) <= Key(index[i], f);
    }
  }

  /** The first entry whose key is at least `k`: `multimap::lower_bound`. */
  function LowerBound(index: seq<Record>, f: IntField, k: int): (p: nat)
    ensures p <= |index|
    ensures forall i :: 0 <= i < p ==> Key(index[i], f) < k
    ensures p < |index| ==> k <= Key(index[p], f)
  {
    if index == [] || k <= Key(index[0], f) then 0 else 1 + LowerBound(index[1..], f, k)
  }

  /** In a sorted index, every entry from the lower bound on has a key of at least `k`. */
  lemma LowerBoundSplits(index: seq<Record>, f: IntField, k: int)
    requires SortedBy(index, f)
    ensures forall i :: LowerBound(index, f, k) <= i < |index| ==> k <= Key(index[i], f)
  {
    var p := LowerBound(index, f, k);
    forall i | p <= i < |index|
      ensures k <= Key(index[i], f)
    {
      assert Key(index[p], f) <= Key(index[i], f);
    }
  }

  /** The index after inserting `r` at its upper bound, as `multimap::insert` does. */
  function Inserted(index: seq<Record>, f: IntField, r: Record): seq<Record>
  {
    var p := UpperBound(index, f, Key(r, f));
    index[..p] + [r] + index[p..]
  }

  /** The position of the entry for `id`: the iterator a stored item keeps. */
  function Position(index: seq<Record>, id: string): (k: nat)
    requires exists i :: 0 <= i < |index| && index[i].id == id
    ensures k < |index| && index[k].id == id
  {
    if index[0].id == id then 0
    else
      assert exists i :: 0 <= i < |index[1..]| && index[1..][i].id == id by {
        var i :| 0 <= i < |index| && index[i].id == id;
        assert index[1..][i - 1].id == id;
      }
      1 + Position(index[1..], id)
  }

  /** The index without the entry at `k`, as `multimap::erase` of an iterator leaves it. */
  function Removed(index: seq<Record>, k: nat): seq<Record>
    requires k < |index|
  {
    index[..k] + index[k + 1..]
  }

  /** The entries of `index` that match `q`, in index order: what a scan may visit. */
  function Select(index: seq<Record>, q: Query): (r: seq<Record>)
    ensures |r| <= |index|
  {
    if index == [] then []
    else
      var rest := Select(index[..|index| - 1], q);
      var last := index[|index| - 1];
      if Matches(last, q) then rest + [last] else rest
  }

  /**
   * `visited` is what a scan over `candidates` visits when it stops after
   * the first record the callback answers `false` for: a prefix of the
   * candidates, every record but the last answered `true`, and the scan
   * ends early only just after a `false`.
   */
  predicate Visits(visited: seq<Record>, candidates: seq<Record>, callback: Record -> bool)
  {
    visited <= candidates &&
    (forall k :: 0 <= k < |visited| - 1 ==> callback(visited[k])) &&
    (|visited| < |candidates| ==> |visited| > 0 && !callback(visited[|visited| - 1]))
  }

  /** There is exactly one such visit for given candidates and callback. */
  lemma VisitsUnique(v1: seq<Record>, v2: seq<Record>, candidates: seq<Record>, callback: Record -> bool)
    requires Visits(v1, candidates, callback) && Visits(v2, candidates, callback)
    ensures v1 == v2
  {
    assert forall k :: 0 <= k < |v1| && k < |v2| ==> v1[k] == candidates[k] == v2[k];
  }

  /** A callback that always answers `true` visits every candidate. */
  lemma VisitsAll(visited: seq<Record>, candidates: seq<Record>, callback: Record -> bool)
    requires Visits(visited, candidates, callback)
    requires forall r :: callback(r)
    ensures visited == candidates
  {
  }

  lemma SelectSnoc(index: seq<Record>, q: Query, i: nat)
    requires i < |index|
    ensures Select(index[..i + 1], q) == Select(index[..i], q) + (if Matches(index[i], q) then [index[i]] else [])
  {
    assert index[..i + 1][..i] == index[..i];
  }

  lemma {:induction false} SelectAppend(a: seq<Record>, b: seq<Record>, q: Query)
    ensures Select(a + b, q) == Select(a, q) + Select(b, q)
    decreases |b|
  {
    if b == [] {
      assert a + b == a;
    } else {
      var b' := b[..|b| - 1];
      assert (a + b)[..|a + b| - 1] == a + b';
      SelectAppend(a, b', q);
    }
  }

  /** Nothing is selected from entries none of which match. */
  lemma {:induction false} SelectNone(index: seq<Record>, q: Query)
    requires forall i :: 0 <= i < |index| ==> !Matches(index[i], q)
    ensures Select(index, q) == []
    decreases |index|
  {
    if index != [] {
      SelectNone(index[..|index| - 1], q);
    }
  }

  /** The selected records are exactly the entries that match. */
  lemma {:induction false} SelectExact(index: seq<Record>, q: Query)
    ensures forall r :: r in Select(index, q) <==> r in index && Matches(r, q)
    decreases |index|
  {
    if index != [] {
      var init := index[..|index| - 1];
      SelectExact(init, q);
      assert index == init + [index[|index| - 1]];
    }
  }

  /** Selecting from an index sorted by `f` keeps the order of `f`. */
  lemma {:induction false} SelectSorted(index: seq<Record>, q: Query, f: IntField)
    requires SortedBy(index, f)
    ensures SortedBy(Select(index, q), f)
    decreases |index|
  {
    if index != [] {
      var init := index[..|index| - 1];
      var last := index[|index| - 1];
      SelectSorted(init, q, f);
      SelectExact(init, q);
      forall r | r in Select(init, q)
        ensures Key(r, f) <= Key(last, f)
      {
        var k :| 0 <= k < |init| && init[k] == r;
      }
    }
  }

  /** Inserting at the upper bound keeps an index sorted. */
  lemma InsertedSorted(index: seq<Record>, f: IntField, r: Record)
    requires SortedBy(index, f)
    ensures SortedBy(Inserted(index, f, r), f)
  {
    UpperBoundSplits(index, f, Key(r, f));
    var p := UpperBound(index, f, Key(r, f));
    var s := Inserted(index, f, r);
    InsertedAt(index, p, r);
    forall i, j | 0 <= i < j < |s|
      ensures Key(s[i], f) <= Key(s[j], f)
    {
      if j < p {
        assert s[i] == index[i] && s[j] == index[j];
      } else if j == p {
        assert s[i] == index[i];
      } else if i == p {
        assert s[j] == index[j - 1];
      } else if i < p {
        assert s[i] == index[i] && s[j] == index[j - 1];
      } else {
        assert s[i] == index[i - 1] && s[j] == index[j - 1];
      }
    }
  }

  /** Inserting a record with a fresh id anywhere keeps an index referring to every stored record once. */
  lemma InsertedIndexes(index: seq<Record>, data: map<string, Record>, p: nat, r: Record)
    requires Indexes(index, data) && r.id !in data && p <= |index|
    ensures Indexes(index[..p] + [r] + index[p..], data[r.id := r])
  {
    InsertedAt(index, p, r);
    InsertedStored(index, data, p, r);
    InsertedDistinct(index, data, p, r);
    InsertedCovers(index, data, p, r);
  }

  lemma InsertedAt(index: seq<Record>, p: nat, r: Record)
    requires p <= |index|
    ensures var s := index[..p] + [r] + index[p..];
      |s| == |index| + 1 && s[p] == r &&
      (forall i :: 0 <= i < p ==> s[i] == index[i]) &&
      (forall i :: p <= i < |index| ==> s[i + 1] == index[i])
  {
  }

  lemma InsertedStored(index: seq<Record>, data: map<string, Record>, p: nat, r: Record)
    requires EntriesStored(index, data) && r.id !in data && p <= |index|
    ensures EntriesStored(index[..p] + [r] + index[p..], data[r.id := r])
  {
    InsertedAt(index, p, r);
  }

  lemma InsertedDistinct(index: seq<Record>, data: map<string, Record>, p: nat, r: Record)
    requires EntriesStored(index, data) && DistinctIds(index) && r.id !in data && p <= |index|
    ensures DistinctIds(index[..p] + [r] + index[p..])
  {
    InsertedAt(index, p, r);
  }

  lemma InsertedCovers(index: seq<Record>, data: map<string, Record>, p: nat, r: Record)
    requires Covers(index, data) && p <= |index|
    ensures Covers(index[..p] + [r] + index[p..], data[r.id := r])
  {
    var s := index[..p] + [r] + index[p..];
    var data' := data[r.id := r];
    InsertedAt(index, p, r);
    forall id | id in data'
      ensures exists i :: 0 <= i < |s| && s[i].id == id
    {
      if id == r.id {
        assert s[p].id == id;
      } else {
        var j :| 0 <= j < |index| && index[j].id == id;
        if j < p {
          assert s[j].id == id;
        } else {
          assert s[j + 1].id == id;
        }
      }
    }
  }

  /** Removing the entry of a stored id keeps an index referring to every other record once. */
  lemma RemovedIndexes(index: seq<Record>, data: map<string, Record>, id: string)
    requires Indexes(index, data) && id in data
    ensures exists i :: 0 <= i < |index| && index[i].id == id
    ensures Indexes(Removed(index, Position(index, id)), data - {id})
  {
    var k := Position(index, id);
    RemovedAt(index, k);
    RemovedStored(index, data, k);
    RemovedCovers(index, data, k);
  }

  lemma RemovedAt(index: seq<Record>, k: nat)
    requires k < |index|
    ensures var s := Removed(index, k);
      |s| == |index| - 1 &&
      (forall i :: 0 <= i < k ==> s[i] == index[i]) &&
      (forall i :: k <= i < |s| ==> s[i] == index[i + 1])
  {
  }

  lemma RemovedStored(index: seq<Record>, data: map<string, Record>, k: nat)
    requires EntriesStored(index, data) && DistinctIds(index) && k < |index|
    ensures EntriesStored(Removed(index, k), data - {index[k].id})
    ensures DistinctIds(Removed(index, k))
  {
    RemovedAt(index, k);
    var s := Removed(index, k);
    forall i | 0 <= i < |s|
      ensures s[i].id != index[k].id
    {
      if i < k {
        assert s[i] == index[i];
      } else {
        assert s[i] == index[i + 1];
      }
    }
  }

  lemma RemovedCovers(index: seq<Record>, data: map<string, Record>, k: nat)
    requires Covers(index, data) && k < |index|
    ensures Covers(Removed(index, k), data - {index[k].id})
  {
    RemovedAt(index, k);
    var s := Removed(index, k);
    var data' := data - {index[k].id};
    forall id' | id' in data'
      ensures exists i :: 0 <= i < |s| && s[i].id == id'
    {
      var j :| 0 <= j < |index| && index[j].id == id';
      if j < k {
        assert s[j].id == id';
      } else {
        assert s[j - 1].id == id';
      }
    }
  }

  /** Removing an entry keeps an index sorted. */
  lemma RemovedSorted(index: seq<Record>, f: IntField, k: nat)
    requires SortedBy(index, f) && k < |index|
    ensures SortedBy(Removed(index, k), f)
  {
    RemovedAt(index, k);
  }

  class Database {
    var data: map<string, Record>
    var timestampIndex: seq<Record>
    var karmaIndex: seq<Record>
    var userIndex: seq<Record>

    /** Records are stored under their own id, and each index refers to each of them once. */
    ghost predicate Valid()
      reads this
    {
      (forall id :: id in data ==> data[id].id == id) &&
      Indexes(timestampIndex, data) && SortedBy(timestampIndex, Timestamp) &&
      Indexes(karmaIndex, data) && SortedBy(karmaIndex, Karma) &&
      Indexes(userIndex, data)
    }

    constructor ()
      ensures Valid() && data == map[]
      ensures timestampIndex == [] && karmaIndex == [] && userIndex == []
    {
      data := map[];
      timestampIndex, karmaIndex, userIndex := [], [], [];
    }

    /** The index ordered by `f`. */
    function IndexFor(f: IntField): seq<Record>
      reads this
    {
      match f
      case Timestamp => timestampIndex
      case Karma => karmaIndex
    }

    /**
     * `Put`: `false` and no change when the id is taken; otherwise the record
     * is stored and every index refers to it.
     */
    method Put(record: Record) returns (inserted: bool)
      requires Valid()
      modifies this
      ensures Valid()
      ensures inserted == (record.id !in old(data))
      ensures !inserted ==> data == old(data) && timestampIndex == old(timestampIndex)
                            && karmaIndex == old(karmaIndex) && userIndex == old(userIndex)
      ensures inserted ==> data == old(data)[record.id := record]
      ensures inserted ==> timestampIndex == Inserted(old(timestampIndex), Timestamp, record)
      ensures inserted ==> karmaIndex == Inserted(old(karmaIndex), Karma, record)
      ensures inserted ==> userIndex == old(userIndex) + [record]
    {
      if record.id in data {
        return false;
      }
      InsertedIndexes(timestampIndex, data, UpperBound(timestampIndex, Timestamp, record.timestamp), record);
      InsertedSorted(timestampIndex, Timestamp, record);
      InsertedIndexes(karmaIndex, data, UpperBound(karmaIndex, Karma, record.karma), record);
      InsertedSorted(karmaIndex, Karma, record);
      InsertedIndexes(userIndex, data, |userIndex|, record);
      assert userIndex[..|userIndex|] + [record] + userIndex[|userIndex|..] == userIndex + [record];
      data := data[record.id := record];
      timestampIndex := Inserted(timestampIndex, Timestamp, record);
      karmaIndex := Inserted(karmaIndex, Karma, record);
      userIndex := userIndex + [record];
      inserted := true;
    }

    /** `GetById`: the stored record with that id, or nothing. */
    function GetById(id: string): (r: Option<Record>)
      requires Valid()
      reads this
      ensures r.Some? <==> id in data
      ensures r.Some? ==> r.value == data[id] && r.value.id == id
    {
      if id in data then Some(data[id]) else None
    }

    /** `Erase`: `false` when the id is absent; otherwise the record leaves the map and every index. */
    method Erase(id: string) returns (erased: bool)
      requires Valid()
      modifies this
      ensures Valid()
      ensures erased == (id in old(data))
      ensures !erased ==> data == old(data) && timestampIndex == old(timestampIndex)
                          && karmaIndex == old(karmaIndex) && userIndex == old(userIndex)
      ensures erased ==> data == old(data) - {id}
      ensures erased ==> timestampIndex == Removed(old(timestampIndex), Position(old(timestampIndex), id))
      ensures erased ==> karmaIndex == Removed(old(karmaIndex), Position(old(karmaIndex), id))
      ensures erased ==> userIndex == Removed(old(userIndex), Position(old(userIndex), id))
    {
      if id !in data {
        return false;
      }
      RemovedIndexes(timestampIndex, data, id);
      RemovedSorted(timestampIndex, Timestamp, Position(timestampIndex, id));
      RemovedIndexes(karmaIndex, data, id);
      RemovedSorted(karmaIndex, Karma, Position(karmaIndex, id));
      RemovedIndexes(userIndex, data, id);
      timestampIndex := Removed(timestampIndex, Position(timestampIndex, id));
      karmaIndex := Removed(karmaIndex, Position(karmaIndex, id));
      userIndex := Removed(userIndex, Position(userIndex, id));
      data := data - {id};
      erased := true;
    }

    /** The scan of `RangeByTimestamp` and `RangeByKarma`, over the index ordered by `f`. */
    method RangeBy(f: IntField, low: int, high: int, callback: Record -> bool) returns (visited: seq<Record>)
      requires Valid()
      ensures Visits(visited, Select(IndexFor(f), KeyRange(f, low, high)), callback)
    {
      visited := ScanRange(IndexFor(f), f, low, high, callback);
    }

    /** `RangeByTimestamp`: the records with `low <= timestamp <= high`, by ascending timestamp. */
    method RangeByTimestamp(low: int, high: int, callback: Record -> bool) returns (visited: seq<Record>)
      requires Valid()
      ensures Visits(visited, Select(timestampIndex, KeyRange(Timestamp, low, high)), callback)
    {
      visited := RangeBy(Timestamp, low, high, callback);
    }

    /** `RangeByKarma`: the records with `low <= karma <= high`, by ascending karma. */
    method RangeByKarma(low: int, high: int, callback: Record -> bool) returns (visited: seq<Record>)
      requires Valid()
      ensures Visits(visited, Select(karmaIndex, KeyRange(Karma, low, high)), callback)
    {
      visited := RangeBy(Karma, low, high, callback);
    }

    /** `AllByUser`: the records of `user`, in the order they were put. */
    method AllByUser(user: string, callback: Record -> bool) returns (visited: seq<Record>)
      requires Valid()
      ensures Visits(visited, Select(userIndex, ByUser(user)), callback)
    {
      visited := ScanUser(userIndex, user, callback);
    }
  }

  /**
   * The loop of `RangeByTimestamp` and `RangeByKarma`: from the lower
   * bound of `low` up to the upper bound of `high`, stopping after the
   * first record the callback answers `false` for. When the two bounds
   * cross, nothing is visited.
   */
  method ScanRange(index: seq<Record>, f: IntField, low: int, high: int, callback: Record -> bool)
    returns (visited: seq<Record>)
    requires SortedBy(index, f)
    ensures Visits(visited, Select(index, KeyRange(f, low, high)), callback)
  {
    var begin := LowerBound(index, f, low);
    var end := UpperBound(index, f, high);
    RangeSlice(index, f, low, high);
    visited := ScanSlice(index, begin, end, callback);
  }

  /** `for (it = begin; it != end; ++it)` with the early stop, for `begin` not past `end`; nothing otherwise. */
  method ScanSlice(index: seq<Record>, begin: nat, end: nat, callback: Record -> bool) returns (visited: seq<Record>)
    requires begin <= |index| && end <= |index|
    ensures Visits(visited, if begin <= end then index[begin..end] else [], callback)
  {
    visited := [];
    var i := begin;
    while i < end
      invariant begin <= i <= |index| && (i <= end || i == begin)
      invariant visited == index[begin..i]
      invariant forall k :: 0 <= k < |visited| ==> callback(visited[k])
    {
      visited := visited + [index[i]];
      i := i + 1;
      if !callback(index[i - 1]) {
        return;
      }
    }
  }

  /**
   * In a sorted index the records in `[low, high]` are the entries from
   * the lower bound of `low` to the upper bound of `high`, and none when
   * those bounds cross.
   */
  lemma RangeSlice(index: seq<Record>, f: IntField, low: int, high: int)
    requires SortedBy(index, f)
    ensures var begin, end := LowerBound(index, f, low), UpperBound(index, f, high);
      Select(index, KeyRange(f, low, high)) == if begin <= end then index[begin..end] else []
  {
    var q := KeyRange(f, low, high);
    var begin, end := LowerBound(index, f, low), UpperBound(index, f, high);
    LowerBoundSplits(index, f, low);
    UpperBoundSplits(index, f, high);
    if begin <= end {
      RangeSliceBetween(index, q, begin, end);
    } else {
      SelectNone(index, q);
    }
  }

  /** Nothing before `begin` or from `end` on matches, everything between does: those are selected. */
  lemma RangeSliceBetween(index: seq<Record>, q: Query, begin: nat, end: nat)
    requires begin <= end <= |index|
    requires forall i :: 0 <= i < begin ==> !Matches(index[i], q)
    requires forall i :: begin <= i < end ==> Matches(index[i], q)
    requires forall i :: end <= i < |index| ==> !Matches(index[i], q)
    ensures Select(index, q) == index[begin..end]
  {
    assert index == index[..begin] + index[begin..end] + index[end..];
    SelectAppend(index[..begin] + index[begin..end], index[end..], q);
    SelectAppend(index[..begin], index[begin..end], q);
    SelectNone(index[..begin], q);
    SelectNone(index[end..], q);
    SelectAll(index[begin..end], q);
  }

  /** Entries that all match are all selected. */
  lemma {:induction false} SelectAll(index: seq<Record>, q: Query)
    requires forall i :: 0 <= i < |index| ==> Matches(index[i], q)
    ensures Select(index, q) == index
    decreases |index|
  {
    if index != [] {
      var init := index[..|index| - 1];
      SelectAll(init, q);
      assert index == init + [index[|index| - 1]];
    }
  }

  /**
   * The lower bound of `low` lies past the upper bound of `high` exactly
   * when `low > high` and some key lies strictly between them: only then
   * does a loop from the one that stops on reaching the other never meet it.
   */
  lemma BoundsCross(index: seq<Record>, f: IntField, low: int, high: int)
    requires SortedBy(index, f)
    ensures UpperBound(index, f, high) < LowerBound(index, f, low) <==>
            exists i :: 0 <= i < |index| && high < Key(index[i], f) < low
  {
    var begin, end := LowerBound(index, f, low), UpperBound(index, f, high);
    LowerBoundSplits(index, f, low);
    UpperBoundSplits(index, f, high);
    if end < begin {
      assert high < Key(index[end], f) < low;
    }
  }

  /**
   * The source's range loops step from the lower bound until they reach
   * the upper bound. With one record of karma 5, `RangeByKarma(7, 3, …)`
   * starts at the end of the index, one past its stopping point, so the
   * loop as written reads past the end of the multimap.
   */
  lemma CrossedRangeOverruns()
    ensures var index := [Record("id", "title", "user", 0, 5)];
      LowerBound(index, Karma, 7) == |index| && UpperBound(index, Karma, 3) == 0
  {
    var index := [Record("id", "title", "user", 0, 5)];
    assert LowerBound(index[1..], Karma, 7) == 0;
    assert UpperBound(index, Karma, 3) == 0;
  }

  /**
   * The loop of `AllByUser`: the user's entries in index order, stopping
   * after the first record the callback answers `false` for. The user
   * multimap's equal range is the user's entries in insertion order; here
   * the index is kept in insertion order and the range is picked out.
   */
  method ScanUser(index: seq<Record>, user: string, callback: Record -> bool) returns (visited: seq<Record>)
    ensures Visits(visited, Select(index, ByUser(user)), callback)
  {
    ghost var q := ByUser(user);
    var i := 0;
    visited := [];
    while i < |index|
      invariant 0 <= i <= |index|
      invariant visited == Select(index[..i], q)
      invariant forall k :: 0 <= k < |visited| ==> callback(visited[k])
    {
      SelectSnoc(index, q, i);
      i := i + 1;
      if index[i - 1].user == user {
        visited := visited + [index[i - 1]];
        if !callback(index[i - 1]) {
          ScanEnd(index, q, i, visited, true);
          return;
        }
      }
    }
    ScanEnd(index, q, i, visited, false);
  }

  /**
   * Where a scan that selected `visited` from the first `i` entries ends:
   * it visited every candidate if it stopped at the end or the rest
   * matches nothing, and a prefix of them in any case.
   */
  lemma ScanEnd(index: seq<Record>, q: Query, i: nat, visited: seq<Record>, stopped: bool)
    requires i <= |index| && visited == Select(index[..i], q)
    requires !stopped ==> forall j :: i <= j < |index| ==> !Matches(index[j], q)
    ensures visited <= Select(index, q)
    ensures !stopped ==> visited == Select(index, q)
  {
    SelectAppend(index[..i], index[i..], q);
    assert index[..i] + index[i..] == index;
    if !stopped {
      SelectNone(index[i..], q);
    }
  }

  /** A range scan's candidates are exactly the stored records in range, by ascending key. */
  lemma RangeCandidates(db: Database, f: IntField, low: int, high: int)
    requires db.Valid()
    ensures SortedBy(Select(db.IndexFor(f), KeyRange(f, low, high)), f)
    ensures forall r :: r in Select(db.IndexFor(f), KeyRange(f, low, high)) <==>
                        r in db.data.Values && low <= Key(r, f) <= high
  {
    var index, q := db.IndexFor(f), KeyRange(f, low, high);
    SelectSorted(index, q, f);
    SelectExact(index, q);
    StoredAre(index, db.data);
  }

  /** A user scan's candidates are exactly that user's stored records. */
  lemma UserCandidates(db: Database, user: string)
    requires db.Valid()
    ensures forall r :: r in Select(db.userIndex, ByUser(user)) <==> r in db.data.Values && r.user == user
  {
    SelectExact(db.userIndex, ByUser(user));
    StoredAre(db.userIndex, db.data);
  }

  /** The entries of an index are the stored records. */
  lemma StoredAre(index: seq<Record>, data: map<string, Record>)
    requires Indexes(index, data)
    ensures forall r :: r in index <==> r in data.Values
  {
    forall r | r in data.Values
      ensures r in index
    {
      var id :| id in data && data[id] == r;
      var i :| 0 <= i < |index| && index[i].id == id;
    }
  }

  // The source's tests.

  /** Two matching entries are both selected. */
  lemma SelectPair(a: Record, b: Record, q: Query)
    requires Matches(a, q) && Matches(b, q)
    ensures Select([a, b], q) == [a, b]
  {
    assert [a, b][..1] == [a];
    assert [a][..0] == [];
  }

  /** A record with a lower key goes before the one already there. */
  lemma InsertedBelow(r1: Record, r2: Record, f: IntField)
    requires Key(r2, f) < Key(r1, f)
    ensures Inserted(Inserted([], f, r1), f, r2) == [r2, r1]
  {
    assert Inserted([], f, r1) == [r1];
    assert UpperBound([r1], f, Key(r2, f)) == 0;
  }

  /** Both bounds of a karma range are inclusive: two records with karma -10 and 1000 are both counted. */
  method RangeBoundariesTest() returns (count: nat)
    ensures count == 2
  {
    var db := new Database();
    var r1 := Record("id1", "Hello there", "master", 1536107260, 1000);
    var r2 := Record("id2", "O>>-<", "general2", 1536107260, -10);
    var ok1 := db.Put(r1);
    var ok2 := db.Put(r2);
    InsertedBelow(r1, r2, Karma);
    var always := (r: Record) => true;
    var visited := db.RangeByKarma(-10, 1000, always);
    VisitsAll(visited, Select(db.karmaIndex, KeyRange(Karma, -10, 1000)), always);
    SelectPair(r2, r1, KeyRange(Karma, -10, 1000));
    count := |visited|;
  }

  /** Two records of the same user are both visited. */
  method SameUserTest() returns (count: nat)
    ensures count == 2
  {
    var db := new Database();
    var r1 := Record("id1", "Don't sell", "master", 1536107260, 1000);
    var r2 := Record("id2", "Rethink life", "master", 1536107260, 2000);
    var ok1 := db.Put(r1);
    var ok2 := db.Put(r2);
    assert db.userIndex == [r1, r2];
    var always := (r: Record) => true;
    var visited := db.AllByUser("master", always);
    VisitsAll(visited, Select(db.userIndex, ByUser("master")), always);
    SelectPair(r1, r2, ByUser("master"));
    count := |visited|;
  }

  /** An id erased and put again holds the new record. */
  method ReplacementTest() returns (title: Option<string>)
    ensures title == Some("Feeling sad")
  {
    var db := new Database();
    var ok1 := db.Put(Record("id", "Have a hand", "not-master", 1536107260, 10));
    var erased := db.Erase("id");
    var ok2 := db.Put(Record("id", "Feeling sad", "not-master", 1536107260, -10));
    var record := db.GetById("id");
    title := if record.Some? then Some(record.value.title) else None;
  }
}
