/** Element-by-element order of sequences: std::string, std::vector and std::tie compare this way. */
module Lexicographic {

  predicate Less(a: seq<int>, b: seq<int>)
    decreases |a|
  {
    b != [] && (a == [] || a[0] < b[0] || (a[0] == b[0] && Less(a[1..], b[1..])))
  }

  lemma {:induction false} Irreflexive(a: seq<int>)
    ensures !Less(a, a)
    decreases |a|
  {
    if a != [] {
      Irreflexive(a[1..]);
    }
  }

  lemma {:induction false} Transitive(a: seq<int>, b: seq<int>, c: seq<int>)
    requires Less(a, b) && Less(b, c)
    ensures Less(a, c)
    decreases |a|
  {
    if a != [] && a[0] == b[0] && b[0] == c[0] {
      Transitive(a[1..], b[1..], c[1..]);
    }
  }

  lemma {:induction false} Trichotomy(a: seq<int>, b: seq<int>)
    ensures Less(a, b) || a == b || Less(b, a)
    decreases |a|
  {
    if a != [] && b != [] && a[0] == b[0] {
      Trichotomy(a[1..], b[1..]);
      assert a == [a[0]] + a[1..] && b == [b[0]] + b[1..];
    }
  }

  /** What recovery sorts by: a time stamp, then an identifier. */
  datatype Key = Key(text: seq<int>, id: nat)

  predicate Precedes(a: Key, b: Key) {
    Less(a.text, b.text) || (a.text == b.text && a.id < b.id)
  }

  predicate InOrderOf<T>(key: T -> Key, items: seq<T>) {
    forall i, j | 0 <= i < j < |items| :: !Precedes(key(items[j]), key(items[i]))
  }

  lemma PrecedesIsOrder(a: Key, b: Key, c: Key)
    ensures !(Precedes(a, b) && Precedes(b, a))
    ensures !Precedes(b, a) && !Precedes(c, b) ==> !Precedes(c, a)
  {
    var x, y, z := a.text, b.text, c.text;
    Irreflexive(x);
    Trichotomy(x, y);
    Trichotomy(y, z);
    Trichotomy(x, z);
    if Less(x, y) && Less(y, x) { Transitive(x, y, x); }
    if Less(z, x) && Less(x, y) { Transitive(z, x, y); }
    if Less(y, z) && Less(z, x) { Transitive(y, z, x); }
  }

  lemma InsertKeeps<T>(key: T -> Key, sorted: seq<T>, at: nat, item: T)
    requires at <= |sorted| && InOrderOf(key, sorted)
    requires forall k | at <= k < |sorted| :: Precedes(key(item), key(sorted[k]))
    requires at > 0 ==> !Precedes(key(item), key(sorted[at - 1]))
    ensures InOrderOf(key, sorted[..at] + [item] + sorted[at..])
  {
    hide Precedes;
    forall k | at <= k < |sorted| ensures !Precedes(key(sorted[k]), key(item)) {
      PrecedesIsOrder(key(item), key(sorted[k]), key(item));
    }
    forall k | 0 <= k < at ensures !Precedes(key(item), key(sorted[k])) {
      if k < at - 1 {
        PrecedesIsOrder(key(sorted[k]), key(sorted[at - 1]), key(item));
      }
    }
  }

  /** Where an item goes: after everything it does not precede. */
  method Place<T>(key: T -> Key, sorted: seq<T>, item: T) returns (at: nat)
    ensures at <= |sorted|
    ensures forall k | at <= k < |sorted| :: Precedes(key(item), key(sorted[k]))
    ensures at > 0 ==> !Precedes(key(item), key(sorted[at - 1]))
  {
    hide Precedes;
    at := |sorted|;
    while at > 0 && Precedes(key(item), key(sorted[at - 1]))
      invariant at <= |sorted|
      invariant forall k | at <= k < |sorted| :: Precedes(key(item), key(sorted[k]))
    {
      at := at - 1;
    }
  }

  /** std::sort on such a key: the same items, none before an earlier one. */
  method SortByKey<T>(key: T -> Key, items: seq<T>) returns (sorted: seq<T>)
    ensures multiset(sorted) == multiset(items)
    ensures InOrderOf(key, sorted)
    ensures |items| <= 1 ==> sorted == items
  {
    hide Precedes, InOrderOf;
    sorted := [];
    NothingInOrder(key);
    for i := 0 to |items|
      invariant multiset(sorted) == multiset(items[..i])
      invariant |sorted| == i
      invariant i <= 1 ==> sorted == items[..i]
      invariant InOrderOf(key, sorted)
    {
      var at := Place(key, sorted, items[i]);
      InsertKeeps(key, sorted, at, items[i]);
      SameItems(items, i, sorted, at);
      sorted := sorted[..at] + [items[i]] + sorted[at..];
    }
    assert items[..|items|] == items;
  }

  lemma SameItems<T>(items: seq<T>, i: nat, sorted: seq<T>, at: nat)
    requires i < |items| && at <= |sorted| && multiset(sorted) == multiset(items[..i])
    ensures multiset(sorted[..at] + [items[i]] + sorted[at..]) == multiset(items[..i + 1])
    ensures i == 0 ==> sorted[..at] + [items[i]] + sorted[at..] == items[..1]
  {
    assert items[..i + 1] == items[..i] + [items[i]];
    assert sorted == sorted[..at] + sorted[at..];
    if i == 0 {
      assert |multiset(sorted)| == 0;
    }
  }

  lemma NothingInOrder<T>(key: T -> Key)
    ensures InOrderOf(key, [])
  {
  }
}
