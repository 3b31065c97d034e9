/**
 * A set-associative cache of key/value items: four sets selected by the two low key
 * bits, each a sorted array of items with a length, searched by binary search.
 *
 * Every array operation is specified by a function on the array contents (SearchIn,
 * InsertInto, EraseFrom, Zeroed); what the operations promise (lookups, sortedness,
 * eviction, the effect of a reset) is proved about those functions.
 */
module StaticCache {
  import opened Common

  const SETS: nat := 4

  /** One cache entry: the key searched for and the value stored with it. */
  datatype Item = Item(key: nat, value: nat)

  /** The all-zero item a memset leaves behind. */
  const ZERO_ITEM := Item(0, 0)

  /** _get_cache_set: the set a key belongs to, its two low bits (key & 3). */
  function SetIndex(key: nat): (i: nat)
    ensures i < SETS
  {
    key % 4
  }

  /** Keys strictly increase over the first len items. */
  ghost predicate Sorted(s: seq<Item>, len: nat)
    requires len <= |s|
  {
    forall i, j :: 0 <= i < j < len ==> s[i].key < s[j].key
  }

  /** Some item among the first len has the key. */
  ghost predicate Present(s: seq<Item>, len: nat, key: nat)
    requires len <= |s|
  {
    exists i :: 0 <= i < len && s[i].key == key
  }

  // ---------------------------------------------------------------------------
  // Specification functions.

  /**
   * _binary_search over the window [down, top]: found with the index of a matching
   * key, or not found with the final value of `down`.
   */
  function SearchRange(s: seq<Item>, key: nat, down: int, top: int): (r: (bool, int))
    requires 0 <= down <= top + 1 <= |s|
    ensures r.0 ==> down <= r.1 <= top && s[r.1].key == key
    ensures !r.0 ==> down <= r.1 <= top + 1
    decreases top - down
  {
    if down > top then (false, down)
    else
      var mid := (down + top) / 2;
      if s[mid].key > key then SearchRange(s, key, down, mid - 1)
      else if s[mid].key < key then SearchRange(s, key, mid + 1, top)
      else (true, mid)
  }

  /** The search over the first len items. */
  function SearchIn(s: seq<Item>, len: nat, key: nat): (r: (bool, int))
    requires len <= |s|
    ensures 0 <= r.1 <= len
    ensures r.0 ==> r.1 < len && s[r.1].key == key
  {
    SearchRange(s, key, 0, len - 1)
  }

  /** static_cache_get on one set: the item with the key, if the search finds one. */
  function LookupIn(s: seq<Item>, len: nat, key: nat): (r: Option<Item>)
    requires len <= |s|
    ensures r.Some? ==> r.value.key == key && Present(s, len, key)
    ensures r.Some? ==> r.value in s[..len]
  {
    var (found, idx) := SearchIn(s, len, key);
    if found then Some(s[idx]) else None
  }

  /** s with the items from idx to len shifted one place right and kv written at idx. */
  function ShiftInsert(s: seq<Item>, len: nat, idx: nat, kv: Item): (t: seq<Item>)
    requires idx <= len < |s|
    ensures |t| == |s| && t[idx] == kv
    ensures forall k :: 0 <= k < idx ==> t[k] == s[k]
    ensures forall k :: idx < k <= len ==> t[k] == s[k - 1]
    ensures forall k :: len < k < |s| ==> t[k] == s[k]
  {
    s[..idx] + [kv] + s[idx..len] + s[len + 1..]
  }

  /** s with the item at idx removed from the first len items and the rest shifted left. */
  function ShiftErase(s: seq<Item>, len: nat, idx: nat): (t: seq<Item>)
    requires idx < len <= |s|
    ensures |t| == |s|
    ensures forall k :: 0 <= k < |s| ==> t[k] == (if idx <= k < len - 1 then s[k + 1] else s[k])
    ensures t[..len - 1] == s[..idx] + s[idx + 1..len] && t[len - 1..] == s[len - 1..]
  {
    var t := seq(|s|, k requires 0 <= k < |s| => if idx <= k < len - 1 then s[k + 1] else s[k]);
    assert t[..len - 1] == s[..idx] + s[idx + 1..len];
    t
  }

  /**
   * static_cache_insert on one set of capacity |s|: overwrite a found key; when the
   * set is full, overwrite at the insertion index; otherwise shift and grow.
   */
  function InsertInto(s: seq<Item>, len: nat, kv: Item): (r: (seq<Item>, nat))
    requires len < |s|
    ensures |r.0| == |s| && r.1 < |s|
    ensures r.1 == len || r.1 == len + 1
  {
    var (found, idx) := SearchIn(s, len, kv.key);
    if found then (s[idx := kv], len)
    else if 1 + len >= |s| then (s[idx := kv], len)
    else (ShiftInsert(s, len, idx, kv), len + 1)
  }

  /** static_cache_erase on one set: remove a found key, otherwise change nothing. */
  function EraseFrom(s: seq<Item>, len: nat, key: nat): (r: (seq<Item>, nat))
    requires len <= |s|
    ensures |r.0| == |s|
    ensures r.1 == len || r.1 + 1 == len
  {
    var (found, idx) := SearchIn(s, len, key);
    if found then (ShiftErase(s, len, idx), len - 1) else (s, len)
  }

  /** s with its first n items set to the all-zero item (n capped at |s|). */
  function Zeroed(s: seq<Item>, n: nat): (t: seq<Item>)
    ensures |t| == |s|
    ensures forall k :: 0 <= k < |s| ==> t[k] == (if k < n then ZERO_ITEM else s[k])
  {
    seq(|s|, k requires 0 <= k < |s| => if k < n then ZERO_ITEM else s[k])
  }

  // ---------------------------------------------------------------------------
  // Properties of the specification functions.

  /** Keys below idx are smaller than key, keys from idx to len are larger. */
  ghost predicate SplitsAt(s: seq<Item>, len: nat, key: nat, idx: int)
    requires len <= |s|
  {
    && (forall j :: 0 <= j < idx && j < len ==> s[j].key < key)
    && (forall j :: idx <= j < len && 0 <= j ==> s[j].key > key)
  }

  /**
   * On a sorted window with smaller keys below it and larger keys above it, the
   * search finds the key exactly when the window holds it, and otherwise returns
   * the index that splits smaller keys from larger ones.
   */
  lemma {:induction false} SearchRangeSorted(s: seq<Item>, len: nat, key: nat, down: int, top: int)
    requires len <= |s| && Sorted(s, len)
    requires 0 <= down <= top + 1 <= len
    requires forall j :: 0 <= j < down ==> s[j].key < key
    requires forall j :: top < j < len ==> s[j].key > key
    ensures SearchRange(s, key, down, top).0 <==> Present(s, len, key)
    ensures !SearchRange(s, key, down, top).0 ==> SplitsAt(s, len, key, SearchRange(s, key, down, top).1)
    decreases top - down
  {
    if down > top {
      EmptyWindow(s, len, key, down);
    } else {
      var mid := (down + top) / 2;
      if s[mid].key > key {
        assert SearchRange(s, key, down, top) == SearchRange(s, key, down, mid - 1);
        LargerAbove(s, len, key, mid);
        SearchRangeSorted(s, len, key, down, mid - 1);
      } else if s[mid].key < key {
        assert SearchRange(s, key, down, top) == SearchRange(s, key, mid + 1, top);
        SmallerBelow(s, len, key, mid);
        SearchRangeSorted(s, len, key, mid + 1, top);
      } else {
        assert Present(s, len, key) by {
          assert 0 <= mid < len && s[mid].key == key;
        }
      }
    }
  }

  /** When the window is empty, the key is absent and `down` splits the set. */
  lemma EmptyWindow(s: seq<Item>, len: nat, key: nat, down: int)
    requires len <= |s| && 0 <= down <= len
    requires forall j :: 0 <= j < down ==> s[j].key < key
    requires forall j :: down <= j < len ==> s[j].key > key
    ensures !Present(s, len, key) && SplitsAt(s, len, key, down)
  {
    forall i | 0 <= i < len
      ensures s[i].key != key
    {
      if i < down {
        assert s[i].key < key;
      } else {
        assert s[i].key > key;
      }
    }
  }

  /** On a sorted set, keys from a larger one at mid upward are larger. */
  lemma LargerAbove(s: seq<Item>, len: nat, key: nat, mid: nat)
    requires len <= |s| && Sorted(s, len) && mid < len && s[mid].key > key
    ensures forall j :: mid <= j < len ==> s[j].key > key
  {
    forall j | mid < j < len
      ensures s[j].key > key
    {
      assert s[mid].key < s[j].key;
    }
  }

  /** On a sorted set, keys up to a smaller one at mid are smaller. */
  lemma SmallerBelow(s: seq<Item>, len: nat, key: nat, mid: nat)
    requires len <= |s| && Sorted(s, len) && mid < len && s[mid].key < key
    ensures forall j :: 0 <= j <= mid ==> s[j].key < key
  {
    forall j | 0 <= j < mid
      ensures s[j].key < key
    {
      assert s[j].key < s[mid].key;
    }
  }

  /** On a sorted set the search is exact and its index splits smaller from larger keys. */
  lemma SearchSorted(s: seq<Item>, len: nat, key: nat)
    requires len <= |s| && Sorted(s, len)
    ensures var (found, idx) := SearchIn(s, len, key);
      && (found <==> Present(s, len, key))
      && (forall j :: 0 <= j < idx ==> s[j].key < key)
      && (!found ==> forall j :: idx <= j < len ==> s[j].key > key)
  {
    SearchRangeSorted(s, len, key, 0, len - 1);
  }

  /** On a sorted set a lookup returns the item holding the key, if any. */
  lemma LookupSorted(s: seq<Item>, len: nat, key: nat, i: nat)
    requires len <= |s| && Sorted(s, len)
    requires i < len && s[i].key == key
    ensures LookupIn(s, len, key) == Some(s[i])
  {
    SearchSorted(s, len, key);
  }

  /** On a sorted set a lookup of an absent key finds nothing. */
  lemma LookupAbsent(s: seq<Item>, len: nat, key: nat)
    requires len <= |s| && Sorted(s, len) && !Present(s, len, key)
    ensures LookupIn(s, len, key) == None
  {
  }

  /**
   * Two sorted sets holding the same items with key k give the same lookup for k.
   */
  lemma SameItemsSameLookup(s: seq<Item>, len: nat, t: seq<Item>, n: nat, k: nat)
    requires len <= |s| && n <= |t| && Sorted(s, len) && Sorted(t, n)
    requires forall x: Item :: x.key == k ==> (x in s[..len] <==> x in t[..n])
    ensures LookupIn(t, n, k) == LookupIn(s, len, k)
  {
    SearchSorted(s, len, k);
    SearchSorted(t, n, k);
    if Present(s, len, k) {
      var i :| 0 <= i < len && s[i].key == k;
      assert s[i] in s[..len];
      var j :| 0 <= j < n && t[j] == s[i];
      LookupSorted(s, len, k, i);
      LookupSorted(t, n, k, j);
    }
  }

  /** Inserting a key that is present overwrites that one entry; length and all else stay. */
  lemma InsertExisting(s: seq<Item>, len: nat, kv: Item, i: nat)
    requires len < |s| && Sorted(s, len)
    requires i < len && s[i].key == kv.key
    ensures InsertInto(s, len, kv) == (s[i := kv], len)
    ensures Sorted(s[i := kv], len)
    ensures LookupIn(s[i := kv], len, kv.key) == Some(kv)
  {
    SearchSorted(s, len, kv.key);
    LookupSorted(s[i := kv], len, kv.key, i);
  }

  /**
   * Inserting an absent key into a set with room: the items from the insertion index
   * move right by one, the length grows by one, the set holds the old items plus the
   * new one and stays sorted, the new item is found and every other key looks up as before.
   */
  lemma InsertNew(s: seq<Item>, len: nat, kv: Item)
    requires len < |s| && Sorted(s, len) && !Present(s, len, kv.key)
    requires len + 1 < |s|
    ensures var (t, n) := InsertInto(s, len, kv);
      && n == len + 1 && t[n..] == s[n..]
      && multiset(t[..n]) == multiset(s[..len]) + multiset{kv}
      && Sorted(t, n)
      && LookupIn(t, n, kv.key) == Some(kv)
      && (forall k :: k != kv.key ==> LookupIn(t, n, k) == LookupIn(s, len, k))
  {
    SearchSorted(s, len, kv.key);
    var idx := SearchIn(s, len, kv.key).1;
    var t := ShiftInsert(s, len, idx, kv);
    assert t[..len + 1] == s[..idx] + [kv] + s[idx..len];
    assert s[..len] == s[..idx] + s[idx..len];
    assert Sorted(t, len + 1);
    LookupSorted(t, len + 1, kv.key, idx);
    forall k | k != kv.key
      ensures LookupIn(t, len + 1, k) == LookupIn(s, len, k)
    {
      SameItemsSameLookup(s, len, t, len + 1, k);
    }
  }

  /**
   * Inserting an absent key into a full set writes at the insertion index and keeps
   * the length. Below the length it evicts the next larger key and the set stays sorted;
   * at the length the item lands beyond the set and cannot be found.
   */
  lemma InsertIntoFull(s: seq<Item>, len: nat, kv: Item)
    requires len < |s| && Sorted(s, len) && !Present(s, len, kv.key)
    requires len + 1 >= |s|
    ensures var (t, n) := InsertInto(s, len, kv);
      var idx := SearchIn(s, len, kv.key).1;
      && n == len && t == s[idx := kv]
      && (idx < len ==>
           && s[idx].key > kv.key
           && Sorted(t, n)
           && LookupIn(t, n, kv.key) == Some(kv)
           && LookupIn(t, n, s[idx].key) == None
           && (forall k :: k != kv.key && k != s[idx].key ==> LookupIn(t, n, k) == LookupIn(s, len, k)))
      && (idx == len ==> t[..n] == s[..len] && LookupIn(t, n, kv.key) == None)
  {
    SearchSorted(s, len, kv.key);
    var idx := SearchIn(s, len, kv.key).1;
    var t := s[idx := kv];
    if idx < len {
      var evicted := s[idx].key;
      assert Sorted(t, len);
      LookupSorted(t, len, kv.key, idx);
      assert !Present(t, len, evicted);
      forall k | k != kv.key && k != evicted
        ensures LookupIn(t, len, k) == LookupIn(s, len, k)
      {
        forall x: Item | x.key == k
          ensures x in s[..len] <==> x in t[..len]
        {
          if x in s[..len] {
            var i :| 0 <= i < len && s[i] == x;
            assert t[i] == x;
          }
          if x in t[..len] {
            var j :| 0 <= j < len && t[j] == x;
            assert s[j] == x;
          }
        }
        SameItemsSameLookup(s, len, t, len, k);
      }
    } else {
      assert t[..len] == s[..len];
      assert !Present(t, len, kv.key);
    }
  }

  /**
   * Erasing a present key removes exactly that entry: the items after it move left,
   * the length drops by one, the set stays sorted, the key is gone and every other
   * key looks up as before.
   */
  lemma ErasePresent(s: seq<Item>, len: nat, key: nat, i: nat)
    requires len <= |s| && Sorted(s, len)
    requires i < len && s[i].key == key
    ensures var (t, n) := EraseFrom(s, len, key);
      && n == len - 1
      && t[..n] == s[..i] + s[i + 1..len]
      && multiset(t[..n]) == multiset(s[..len]) - multiset{s[i]}
      && Sorted(t, n)
      && LookupIn(t, n, key) == None
      && (forall k :: k != key ==> LookupIn(t, n, k) == LookupIn(s, len, k))
  {
    SearchSorted(s, len, key);
    assert SearchIn(s, len, key).1 == i;
    var t := ShiftErase(s, len, i);
    ShiftEraseContents(s, len, i);
    forall k | k != key
      ensures LookupIn(t, len - 1, k) == LookupIn(s, len, k)
    {
      SameItemsSameLookup(s, len, t, len - 1, k);
    }
  }

  /** Removing the item at i from a sorted set leaves the others, still sorted, without its key. */
  lemma ShiftEraseContents(s: seq<Item>, len: nat, i: nat)
    requires len <= |s| && Sorted(s, len) && i < len
    ensures var t := ShiftErase(s, len, i);
      && t[..len - 1] == s[..i] + s[i + 1..len]
      && multiset(t[..len - 1]) == multiset(s[..len]) - multiset{s[i]}
      && Sorted(t, len - 1)
      && !Present(t, len - 1, s[i].key)
      && forall x: Item :: x.key != s[i].key ==> (x in s[..len] <==> x in t[..len - 1])
  {
    var t := ShiftErase(s, len, i);
    var a, b := s[..i], s[i + 1..len];
    assert t[..len - 1] == a + b;
    assert s[..len] == a + [s[i]] + b;
    assert multiset(t[..len - 1]) == multiset(s[..len]) - multiset{s[i]} by {
      assert multiset(s[..len]) == multiset(a) + multiset{s[i]} + multiset(b);
    }
    ErasedSorted(s, len, i);
    forall x: Item | x.key != s[i].key
      ensures x in s[..len] <==> x in t[..len - 1]
    {
      assert x in s[..len] <==> x in a || x == s[i] || x in b;
    }
  }

  /** Removing the item at i from a sorted set keeps it sorted and drops its key. */
  lemma ErasedSorted(s: seq<Item>, len: nat, i: nat)
    requires len <= |s| && Sorted(s, len) && i < len
    ensures Sorted(ShiftErase(s, len, i), len - 1)
    ensures !Present(ShiftErase(s, len, i), len - 1, s[i].key)
  {
    var t := ShiftErase(s, len, i);
    forall p, q | 0 <= p < q < len - 1
      ensures t[p].key < t[q].key
    {
      var p', q' := if p < i then p else p + 1, if q < i then q else q + 1;
      assert t[p] == s[p'] && t[q] == s[q'];
    }
    forall p | 0 <= p < len - 1
      ensures t[p].key != s[i].key
    {
      var p' := if p < i then p else p + 1;
      assert t[p] == s[p'];
    }
  }

  /** Erasing an absent key changes nothing. */
  lemma EraseAbsent(s: seq<Item>, len: nat, key: nat)
    requires len <= |s| && Sorted(s, len) && !Present(s, len, key)
    ensures EraseFrom(s, len, key) == (s, len)
  {
    SearchSorted(s, len, key);
  }

  /**
   * A reset is not a clear: with capacity 8 a memset of 8 bytes zeroes only the first
   * two 4-byte items, the length stays 3, the set is no longer sorted, a stale entry is
   * still found, and key 0 now looks up as a zero item.
   */
  lemma ResetIsNotClear()
    ensures var s := [Item(4, 1), Item(8, 2), Item(12, 3), ZERO_ITEM, ZERO_ITEM, ZERO_ITEM, ZERO_ITEM, ZERO_ITEM];
      var t := Zeroed(s, 8 / 4);
      && Sorted(s, 3) && !Sorted(t, 3)
      && LookupIn(s, 3, 4) == Some(Item(4, 1)) && LookupIn(t, 3, 4) == None
      && LookupIn(t, 3, 12) == Some(Item(12, 3))
      && LookupIn(t, 3, 0) == Some(ZERO_ITEM)
  {
    var s := [Item(4, 1), Item(8, 2), Item(12, 3), ZERO_ITEM, ZERO_ITEM, ZERO_ITEM, ZERO_ITEM, ZERO_ITEM];
    var t := Zeroed(s, 2);
    assert t[0] == ZERO_ITEM && t[1] == ZERO_ITEM && t[2] == Item(12, 3);
  }

  // ---------------------------------------------------------------------------
  // One set: a fixed array and a length.

  class CacheSet {
    const items: array<Item>
    var length: int

    /** The length is within the array and leaves at least one slot free. */
    ghost predicate Valid()
      reads this
    {
      0 <= length < items.Length
    }

    /** An empty set over a zero-initialised array of cap items. */
    constructor (cap: nat)
      requires cap >= 1
      ensures Valid() && fresh(items)
      ensures items.Length == cap && length == 0
      ensures forall k :: 0 <= k < cap ==> items[k] == ZERO_ITEM
    {
      items := new Item[cap](_ => ZERO_ITEM);
      length := 0;
    }

    /** _binary_search: the while loop over down and top. */
    method Search(key: nat) returns (found: bool, idx: int)
      requires Valid()
      ensures (found, idx) == SearchIn(items[..], length, key)
      ensures found ==> 0 <= idx < length && items[idx].key == key
      ensures !found ==> 0 <= idx <= length
    {
      var down := 0;
      var top := length - 1;
      while down <= top
        invariant 0 <= down <= top + 1 <= length
        invariant SearchRange(items[..], key, down, top) == SearchIn(items[..], length, key)
        decreases top - down
      {
        var mid := (down + top) / 2;
        if items[mid].key > key {
          top := mid - 1;
        } else if items[mid].key < key {
          down := mid + 1;
        } else {
          return true, mid;
        }
      }
      return false, down;
    }

    /** static_cache_get within this set. */
    method Get(key: nat) returns (r: Option<Item>)
      requires Valid()
      ensures r == LookupIn(items[..], length, key)
    {
      var found, idx := Search(key);
      if found {
        r := Some(items[idx]);
      } else {
        r := None;
      }
    }

    /** static_cache_insert within this set. */
    method Insert(kv: Item)
      requires Valid()
      modifies this, items
      ensures Valid()
      ensures (items[..], length) == InsertInto(old(items[..]), old(length), kv)
    {
      ghost var s := items[..];
      var found, idx := Search(kv.key);
      if found || 1 + length >= items.Length {
        items[idx] := kv;
        assert InsertInto(s, length, kv) == (s[idx := kv], length);
      } else {
        OpenSlot(idx, kv);
        length := length + 1;
        assert InsertInto(s, length - 1, kv) == (ShiftInsert(s, length - 1, idx, kv), length);
      }
    }

    /** The insertion's shift loop: items idx..length-1 move one place right, then kv goes to idx. */
    method OpenSlot(idx: int, kv: Item)
      requires Valid() && 0 <= idx <= length && length + 1 < items.Length
      modifies items
      ensures items[..] == ShiftInsert(old(items[..]), length, idx, kv)
    {
      ghost var s := items[..];
      var i := length - 1;
      while i >= idx
        invariant idx - 1 <= i <= length - 1
        invariant forall k :: 0 <= k <= i + 1 ==> items[k] == s[k]
        invariant forall k :: i + 1 < k <= length ==> items[k] == s[k - 1]
        invariant forall k :: length < k < items.Length ==> items[k] == s[k]
      {
        items[i + 1] := items[i];
        i := i - 1;
      }
      items[idx] := kv;
      assert items[..] == ShiftInsert(s, length, idx, kv);
    }

    /** static_cache_erase within this set. */
    method Erase(key: nat)
      requires Valid()
      modifies this, items
      ensures Valid()
      ensures (items[..], length) == EraseFrom(old(items[..]), old(length), key)
    {
      ghost var s := items[..];
      var found, idx := Search(key);
      if found {
        CloseSlot(idx);
        length := length - 1;
        assert EraseFrom(s, length + 1, key) == (ShiftErase(s, length + 1, idx), length);
      } else {
        assert EraseFrom(s, length, key) == (s, length);
      }
    }

    /** The erasure's shift loop: items idx+1..length-1 move one place left. */
    method CloseSlot(idx: int)
      requires Valid() && 0 <= idx < length
      modifies items
      ensures items[..] == ShiftErase(old(items[..]), length, idx)
    {
      ghost var s := items[..];
      var i := idx;
      while i < length - 1
        invariant idx <= i < length
        invariant forall k :: 0 <= k < idx ==> items[k] == s[k]
        invariant forall k :: idx <= k < i ==> items[k] == s[k + 1]
        invariant forall k :: i <= k < items.Length ==> items[k] == s[k]
      {
        items[i] := items[i + 1];
        i := i + 1;
      }
      assert items[..] == ShiftErase(s, length, idx);
    }

    /** The memset of static_cache_reset: the first n items become zero; length stays. */
    method ZeroPrefix(n: nat)
      requires Valid()
      modifies items
      ensures Valid()
      ensures items[..] == Zeroed(old(items[..]), n)
    {
      forall k | 0 <= k < items.Length && k < n {
        items[k] := ZERO_ITEM;
      }
    }
  }

  // ---------------------------------------------------------------------------
  // The cache: four sets of equal capacity.

  class Cache {
    const sets: seq<CacheSet>
    const cap: nat

    ghost predicate Valid()
      reads this, sets
    {
      && |sets| == SETS
      && (forall i :: 0 <= i < SETS ==> sets[i].Valid() && sets[i].items.Length == cap)
      && (forall i, j :: 0 <= i < j < SETS ==> sets[i] != sets[j] && sets[i].items != sets[j].items)
    }

    /** The four statically allocated, zero-filled, empty sets of capacity cap. */
    constructor (cap: nat)
      requires cap >= 1
      ensures Valid() && this.cap == cap
      ensures forall i :: 0 <= i < SETS ==> sets[i].length == 0
      ensures forall i, k :: 0 <= i < SETS && 0 <= k < cap ==> sets[i].items[k] == ZERO_ITEM
    {
      var s0 := new CacheSet(cap);
      var s1 := new CacheSet(cap);
      var s2 := new CacheSet(cap);
      var s3 := new CacheSet(cap);
      sets := [s0, s1, s2, s3];
      this.cap := cap;
    }

    /** _get_cache_set. */
    function SetFor(key: nat): (s: CacheSet)
      requires |sets| == SETS
      reads this
      ensures s == sets[SetIndex(key)]
    {
      sets[SetIndex(key)]
    }

    /** static_cache_get: searches only the key's set. */
    method Get(key: nat) returns (r: Option<Item>)
      requires Valid()
      ensures r == LookupIn(SetFor(key).items[..], SetFor(key).length, key)
    {
      r := SetFor(key).Get(key);
    }

    /** static_cache_insert: changes only the key's set. */
    method Insert(kv: Item)
      requires Valid()
      modifies SetFor(kv.key), SetFor(kv.key).items
      ensures Valid()
      ensures var s := SetFor(kv.key);
        (s.items[..], s.length) == InsertInto(old(s.items[..]), old(s.length), kv)
      ensures forall i :: 0 <= i < SETS && i != SetIndex(kv.key) ==>
        unchanged(sets[i]) && unchanged(sets[i].items)
    {
      SetFor(kv.key).Insert(kv);
    }

    /** static_cache_erase: changes only the key's set. */
    method Erase(key: nat)
      requires Valid()
      modifies SetFor(key), SetFor(key).items
      ensures Valid()
      ensures var s := SetFor(key);
        (s.items[..], s.length) == EraseFrom(old(s.items[..]), old(s.length), key)
      ensures forall i :: 0 <= i < SETS && i != SetIndex(key) ==>
        unchanged(sets[i]) && unchanged(sets[i].items)
    {
      SetFor(key).Erase(key);
    }

    /**
     * static_cache_reset: clears cap bytes of every set, which is the first cap / 4
     * of its 4-byte items; no length is touched.
     */
    method Reset()
      requires Valid()
      modifies set i | 0 <= i < SETS :: sets[i].items
      ensures Valid()
      ensures forall i :: 0 <= i < SETS ==>
        sets[i].items[..] == Zeroed(old(sets[i].items[..]), cap / 4) && sets[i].length == old(sets[i].length)
    {
      for i := 0 to SETS
        invariant Valid()
        invariant forall j :: 0 <= j < i ==> sets[j].items[..] == Zeroed(old(sets[j].items[..]), cap / 4)
        invariant forall j :: i <= j < SETS ==> sets[j].items[..] == old(sets[j].items[..])
        invariant forall j :: 0 <= j < SETS ==> sets[j].length == old(sets[j].length)
      {
        sets[i].ZeroPrefix(cap / 4);
      }
    }
  }
}
