/** Integer-keyed maps of collections: the `Mappable` interface with its
    defaults, its `HashMappable` implementation and the LinkedHashMap-backed
    set and list implementations of `MapUtils` (the section and the unit
    variants share one model, since they differ only in the element type).

    A stored collection is a value here: its elements in iteration order,
    with no repetition when it is a set. */
module Mappables {
  import opened Results

  /** The collection type a map stores, and a supplier creates. */
  datatype Kind = ListKind | SetKind

  /** The two key comparators `order(boolean)` builds. */
  datatype KeyOrder = Natural | Reverse

  predicate Precedes(o: KeyOrder, a: int, b: int) {
    match o
    case Natural => a < b
    case Reverse => a > b
  }

  predicate SortedBy(o: KeyOrder, ks: seq<int>) {
    forall i, j :: 0 <= i < j < |ks| ==> Precedes(o, ks[i], ks[j])
  }

  predicate Distinct<X(==)>(s: seq<X>) {
    forall i, j :: 0 <= i < j < |s| ==> s[i] != s[j]
  }

  lemma DistinctCons<X>(x: X, s: seq<X>)
    requires x !in s && Distinct(s)
    ensures Distinct([x] + s)
  {
    forall i, j | 0 <= i < j < |[x] + s|
      ensures ([x] + s)[i] != ([x] + s)[j]
    {
      if i == 0 {
        assert ([x] + s)[j] == s[j - 1];
      } else {
        assert ([x] + s)[i] == s[i - 1] && ([x] + s)[j] == s[j - 1];
      }
    }
  }

  /** A `java.util.Map<Integer, C>` handed to a constructor: its keys in
      iteration order and the collection under each. */
  datatype JavaMap<X> = JavaMap(keys: seq<int>, at: map<int, seq<X>>)

  /** Keys listed once each and exactly the keys mapped; a set-valued map
      holds sets. */
  ghost predicate WellFormed<X>(kind: Kind, m: JavaMap<X>) {
    && Distinct(m.keys)
    && Covered(m.keys, m.at)
    && (forall k :: k in m.at ==> k in m.keys)
    && (kind == SetKind ==> forall k :: k in m.at ==> Distinct(m.at[k]))
  }

  /** `Collection.add`: a list appends, a set appends only a new element. */
  function Add<X(==)>(c: seq<X>, x: X, kind: Kind): seq<X>
  {
    if kind == SetKind && x in c then c else c + [x]
  }

  /** `c.addAll(xs)`: each element of `xs` added in turn. */
  function AddAll<X(==)>(c: seq<X>, xs: seq<X>, kind: Kind): (r: seq<X>)
    ensures forall x :: x in r ==> x in c || x in xs
    ensures (forall x :: x in c ==> x in r) && (forall x :: x in xs ==> x in r)
    ensures kind == ListKind ==> r == c + xs
    ensures kind == SetKind && Distinct(c) ==> Distinct(r)
    ensures kind == SetKind && Distinct(c + xs) ==> r == c + xs
    decreases |xs|
  {
    if xs == [] then
      assert c + xs == c;
      c
    else
      var r := AddAll(Add(c, xs[0], kind), xs[1..], kind);
      assert (c + [xs[0]]) + xs[1..] == c + xs;
      assert kind == SetKind && Distinct(c) && xs[0] !in c ==> Distinct(c + [xs[0]]) by {
        if kind == SetKind && Distinct(c) && xs[0] !in c {
          forall i, j | 0 <= i < j < |c + [xs[0]]| ensures (c + [xs[0]])[i] != (c + [xs[0]])[j] {
            if j == |c| {
              assert (c + [xs[0]])[i] == c[i];
            }
          }
        }
      }
      assert kind == SetKind && Distinct(c + xs) ==> xs[0] !in c by {
        if kind == SetKind && Distinct(c + xs) {
          forall i | 0 <= i < |c| ensures c[i] != xs[0] {
            assert (c + xs)[i] == c[i] && (c + xs)[|c|] == xs[0];
          }
        }
      }
      r
  }

  /** A fresh collection of the given kind filled from `v`: `supplier.get()`
      followed by `addAll(v)`, `new ArrayList<>(v)` or `new HashSet<>(v)`. */
  function CopyOf<X(==)>(kind: Kind, v: seq<X>): seq<X>
  {
    AddAll([], v, kind)
  }

  /** Copying a stored collection into a fresh one of the same kind keeps
      its elements. */
  lemma CopyOfStored<X>(kind: Kind, v: seq<X>)
    requires kind == SetKind ==> Distinct(v)
    ensures CopyOf(kind, v) == v
  {
    assert [] + v == v;
  }

  /** A set filled from a sequence holds its elements once each. */
  lemma CopyOfIntoSet<X>(v: seq<X>)
    ensures Distinct(CopyOf(SetKind, v))
    ensures forall x :: x in CopyOf(SetKind, v) <==> x in v
  {
  }

  /** `c.removeIf(p.negate())`: the elements satisfying `p`, in order. */
  function Keep<X(==)>(c: seq<X>, p: X -> bool): (r: seq<X>)
    ensures forall x :: x in c ==> multiset(r)[x] == if p(x) then multiset(c)[x] else 0
    ensures forall x :: x in r ==> x in c && p(x)
    ensures forall x :: x in c && p(x) ==> x in r
  {
    if c == [] then []
    else
      assert c == [c[0]] + c[1..];
      if p(c[0]) then [c[0]] + Keep(c[1..], p) else Keep(c[1..], p)
  }

  /** Filtering a set leaves a set. */
  lemma {:induction false} KeepDistinct<X>(c: seq<X>, p: X -> bool)
    requires Distinct(c)
    ensures Distinct(Keep(c, p))
  {
    if c != [] {
      assert Distinct(c[1..]) by {
        forall i, j | 0 <= i < j < |c[1..]| ensures c[1..][i] != c[1..][j] {
          assert c[1..][i] == c[i + 1] && c[1..][j] == c[j + 1];
        }
      }
      KeepDistinct(c[1..], p);
      if p(c[0]) {
        forall j | 0 <= j < |c[1..]| ensures c[1..][j] != c[0] {
          assert c[1..][j] == c[j + 1];
        }
        DistinctCons(c[0], Keep(c[1..], p));
      }
    }
  }

  /** Every collection of `g` with the elements failing `p` removed. */
  function Filtered<X(==)>(g: map<int, seq<X>>, p: X -> bool): (r: map<int, seq<X>>)
    ensures r.Keys == g.Keys
  {
    map k | k in g :: Keep(g[k], p)
  }

  /** The `forEach` loop of `filter`: `update` applied in place to the
      collection of every key in turn. */
  method UpdateEach<X>(ks: seq<int>, g: map<int, seq<X>>, update: seq<X> -> seq<X>) returns (r: map<int, seq<X>>)
    requires Distinct(ks) && Covered(ks, g) && forall k :: k in g ==> k in ks
    ensures r.Keys == g.Keys
    ensures forall k :: k in g ==> r[k] == update(g[k])
  {
    r := g;
    var i := 0;
    while i < |ks|
      invariant 0 <= i <= |ks|
      invariant r.Keys == g.Keys
      invariant forall j :: 0 <= j < i ==> r[ks[j]] == update(g[ks[j]])
      invariant forall j :: i <= j < |ks| ==> r[ks[j]] == g[ks[j]]
    {
      var k := ks[i];
      r := r[k := update(r[k])];
      i := i + 1;
    }
    forall k | k in g ensures r[k] == update(g[k]) {
      var j :| 0 <= j < |ks| && ks[j] == k;
    }
  }

  /** A map holding, under each key of `g`, that collection filtered, is
      `Filtered(g, p)`. */
  lemma FilteredIs<X>(g: map<int, seq<X>>, f: map<int, seq<X>>, p: X -> bool)
    requires f.Keys == g.Keys
    requires forall k :: k in g ==> f[k] == (c => Keep(c, p))(g[k])
    ensures f == Filtered(g, p)
  {
    var h := Filtered(g, p);
    assert forall k :: k in f ==> f[k] == h[k];
  }

  /** Filtering every collection keeps a map well formed. */
  lemma FilteredWellFormed<X>(kind: Kind, m: JavaMap<X>, p: X -> bool)
    requires WellFormed(kind, m)
    ensures WellFormed(kind, JavaMap(m.keys, Filtered(m.at, p)))
  {
    if kind == SetKind {
      forall k | k in m.at ensures Distinct(Filtered(m.at, p)[k]) {
        KeepDistinct(m.at[k], p);
      }
    }
  }

  /** `TreeMap.put` of a new key: the key at its place in comparator order. */
  function InsertKey(ks: seq<int>, k: int, o: KeyOrder): (r: seq<int>)
    requires SortedBy(o, ks) && k !in ks
    ensures SortedBy(o, r)
    ensures forall x :: x in r <==> x in ks || x == k
    ensures |r| == |ks| + 1
  {
    if ks == [] then [k]
    else if Precedes(o, k, ks[0]) then [k] + ks
    else
      assert Precedes(o, ks[0], k);
      var rest := InsertKey(ks[1..], k, o);
      assert forall j :: 0 <= j < |rest| ==> Precedes(o, ks[0], rest[j]) by {
        forall j | 0 <= j < |rest| ensures Precedes(o, ks[0], rest[j]) {
          assert rest[j] in rest;
          if rest[j] != k {
            var t :| 0 <= t < |ks[1..]| && ks[1..][t] == rest[j];
            assert ks[t + 1] == rest[j];
          }
        }
      }
      assert SortedBy(o, ks[1..]) by {
        forall i, j | 0 <= i < j < |ks[1..]| ensures Precedes(o, ks[1..][i], ks[1..][j]) {
          assert ks[1..][i] == ks[i + 1] && ks[1..][j] == ks[j + 1];
        }
      }
      [ks[0]] + rest
  }

  /** `v.stream().map(f)` collected into a fresh collection of `kind`. */
  function Converted<X, Y(==)>(kind: Kind, f: X -> Y, v: seq<X>): (r: seq<Y>)
    ensures kind == SetKind ==> Distinct(r)
  {
    CopyOfIntoSet(MapSeq(f, v));
    CopyOf(kind, MapSeq(f, v))
  }

  /** The elements of `xs` through `f`, in order. */
  function MapSeq<X, Y>(f: X -> Y, xs: seq<X>): (r: seq<Y>)
    ensures |r| == |xs| && forall i :: 0 <= i < |xs| ==> r[i] == f(xs[i])
  {
    if xs == [] then [] else [f(xs[0])] + MapSeq(f, xs[1..])
  }

  /** Every key of `ks` is mapped by `g`. */
  predicate Covered<X>(ks: seq<int>, g: map<int, seq<X>>) {
    forall i :: 0 <= i < |ks| ==> ks[i] in g
  }

  /** `values().forEach(collection::addAll)` from the collection `acc`: the
      collections under `ks`, in that order, added one after another. */
  function StoredFrom<X(==)>(acc: seq<X>, kind: Kind, ks: seq<int>, g: map<int, seq<X>>): seq<X>
    requires Covered(ks, g)
    decreases |ks|
  {
    if ks == [] then acc else StoredFrom(AddAll(acc, g[ks[0]], kind), kind, ks[1..], g)
  }

  /** All stored values gathered into one fresh collection of `kind`. */
  function Stored<X(==)>(kind: Kind, ks: seq<int>, g: map<int, seq<X>>): seq<X>
    requires Covered(ks, g)
  {
    StoredFrom([], kind, ks, g)
  }

  /** The collections under `ks` one after another. */
  function Flatten<X>(ks: seq<int>, g: map<int, seq<X>>): seq<X>
    requires Covered(ks, g)
  {
    if ks == [] then [] else g[ks[0]] + Flatten(ks[1..], g)
  }

  /** Sum of the sizes of the collections under `ks`. */
  function TotalSize<X>(ks: seq<int>, g: map<int, seq<X>>): nat
    requires Covered(ks, g)
  {
    if ks == [] then 0 else |g[ks[0]]| + TotalSize(ks[1..], g)
  }

  /** An element is gathered exactly when it was in `acc` or in one of the
      collections. */
  lemma {:induction false} StoredFromMembers<X>(acc: seq<X>, kind: Kind, ks: seq<int>, g: map<int, seq<X>>, x: X)
    requires Covered(ks, g)
    ensures x in StoredFrom(acc, kind, ks, g) <==> x in acc || exists j :: 0 <= j < |ks| && x in g[ks[j]]
    decreases |ks|
  {
    if ks != [] {
      StoredFromMembers(AddAll(acc, g[ks[0]], kind), kind, ks[1..], g, x);
      assert forall j :: 1 <= j < |ks| ==> ks[j] == ks[1..][j - 1];
      if exists j :: 0 <= j < |ks[1..]| && x in g[ks[1..][j]] {
        var j :| 0 <= j < |ks[1..]| && x in g[ks[1..][j]];
        assert x in g[ks[j + 1]];
      }
    }
  }

  /** Gathering into a set never repeats an element. */
  lemma {:induction false} StoredFromDistinct<X>(acc: seq<X>, ks: seq<int>, g: map<int, seq<X>>)
    requires Covered(ks, g)
    requires Distinct(acc)
    ensures Distinct(StoredFrom(acc, SetKind, ks, g))
    decreases |ks|
  {
    if ks != [] {
      StoredFromDistinct(AddAll(acc, g[ks[0]], SetKind), ks[1..], g);
    }
  }

  /** Gathering into a list appends every collection in order. */
  lemma {:induction false} StoredFromList<X>(acc: seq<X>, ks: seq<int>, g: map<int, seq<X>>)
    requires Covered(ks, g)
    ensures StoredFrom(acc, ListKind, ks, g) == acc + Flatten(ks, g)
    decreases |ks|
  {
    if ks == [] {
      assert acc + [] == acc;
    } else {
      StoredFromList(acc + g[ks[0]], ks[1..], g);
      assert (acc + g[ks[0]]) + Flatten(ks[1..], g) == acc + (g[ks[0]] + Flatten(ks[1..], g));
    }
  }

  lemma {:induction false} FlattenSize<X>(ks: seq<int>, g: map<int, seq<X>>)
    requires Covered(ks, g)
    ensures |Flatten(ks, g)| == TotalSize(ks, g)
    decreases |ks|
  {
    if ks != [] {
      FlattenSize(ks[1..], g);
    }
  }

  /** `BaseSet.getStoredValues`: the union of the stored sets, each element
      once. */
  lemma StoredSet<X>(ks: seq<int>, g: map<int, seq<X>>)
    requires Covered(ks, g)
    ensures Distinct(Stored(SetKind, ks, g))
    ensures forall x :: x in Stored(SetKind, ks, g) <==> exists j :: 0 <= j < |ks| && x in g[ks[j]]
  {
    StoredFromDistinct([], ks, g);
    forall x ensures x in Stored(SetKind, ks, g) <==> exists j :: 0 <= j < |ks| && x in g[ks[j]] {
      StoredFromMembers([], SetKind, ks, g, x);
    }
  }

  /** `BaseList.getStoredValues`: the stored lists concatenated in order,
      as long as all of them together. */
  lemma StoredList<X>(ks: seq<int>, g: map<int, seq<X>>)
    requires Covered(ks, g)
    ensures Stored(ListKind, ks, g) == Flatten(ks, g)
    ensures |Stored(ListKind, ks, g)| == TotalSize(ks, g)
  {
    StoredFromList([], ks, g);
    assert [] + Flatten(ks, g) == Flatten(ks, g);
    FlattenSize(ks, g);
  }

  /** The entries `(key, collection)` in key order. */
  function Pairs<X>(ks: seq<int>, g: map<int, seq<X>>): (r: seq<(int, seq<X>)>)
    requires Covered(ks, g)
    ensures |r| == |ks| && forall i :: 0 <= i < |ks| ==> r[i] == (ks[i], g[ks[i]])
  {
    if ks == [] then [] else [(ks[0], g[ks[0]])] + Pairs(ks[1..], g)
  }

  /** The entry set lists each mapping of the map, and nothing else. */
  lemma PairsCover<X>(ks: seq<int>, g: map<int, seq<X>>)
    requires Covered(ks, g) && forall k :: k in g ==> k in ks
    ensures forall e :: e in Pairs(ks, g) <==> e.0 in g && g[e.0] == e.1
  {
    forall e: (int, seq<X>) | e.0 in g && g[e.0] == e.1 ensures e in Pairs(ks, g) {
      var i :| 0 <= i < |ks| && ks[i] == e.0;
      assert Pairs(ks, g)[i] == e;
    }
  }

  /** A `Mappable`: a map from integer keys to collections.

      `hashed` marks a `HashMappable`, which is a `HashMap`; the model keeps
      its keys in insertion order but promises no order for it. Otherwise
      this is one of the `SetImpl`/`ListImpl` classes of `MapUtils`, a
      `LinkedHashMap` whose keys iterate in insertion order. */
  class Mappable<T(==)> {
    /** `C`: what this map stores, and what the supplier of a `HashMappable`
        creates. */
    const kind: Kind
    const hashed: bool
    /** The keys, in iteration order. */
    var keys: seq<int>
    /** The collection under each key. */
    var groups: map<int, seq<T>>

    ghost predicate Valid()
      reads this
    {
      WellFormed(kind, JavaMap(keys, groups))
    }

    /** A map with no entries: `AbstractMappable()` and the no-argument
        constructors of the impl classes. */
    constructor Empty(kind: Kind, hashed: bool)
      ensures Valid() && this.kind == kind && this.hashed == hashed
      ensures keys == [] && groups == map[]
    {
      this.kind := kind;
      this.hashed := hashed;
      keys := [];
      groups := map[];
    }

    /** `AbstractMappable(map)`: a null map gives an empty one, any other the
        entries of `source` in its iteration order. */
    constructor FromMap(kind: Kind, hashed: bool, source: Option<JavaMap<T>>)
      requires source.Some? ==> WellFormed(kind, source.value)
      ensures Valid() && this.kind == kind && this.hashed == hashed
      ensures source.None? ==> keys == [] && groups == map[]
      ensures source.Some? ==> keys == source.value.keys && groups == source.value.at
    {
      this.kind := kind;
      this.hashed := hashed;
      if source.None? {
        keys := [];
        groups := map[];
      } else {
        keys := source.value.keys;
        groups := source.value.at;
      }
    }

    /** `Map.put`: a new key goes last, an existing one keeps its place. */
    method Put(k: int, c: seq<T>)
      requires Valid() && (kind == SetKind ==> Distinct(c))
      modifies this
      ensures Valid()
      ensures keys == if k in old(groups) then old(keys) else old(keys) + [k]
      ensures groups == old(groups)[k := c]
    {
      if k !in groups {
        assert k !in keys;
        keys := keys + [k];
      }
      groups := groups[k := c];
    }

    /** `filter`: removes, in place, every element failing the predicate
        from every stored collection; keys stay, even over an emptied
        collection. A null predicate is dereferenced once per collection. */
    method Filter(keep: Option<T -> bool>) returns (r: Result<Mappable<T>>)
      requires Valid()
      modifies this
      ensures Valid() && keys == old(keys)
      ensures keep.None? ==> groups == old(groups) && r == if keys == [] then Ok(this) else Err(NullPointer)
      ensures keep.Some? ==> r == Ok(this) && groups == Filtered(old(groups), keep.value)
    {
      if keep.None? {
        r := if keys == [] then Ok(this) else Err(NullPointer);
        return;
      }
      var p := keep.value;
      FilteredWellFormed(kind, JavaMap(keys, groups), p);
      var g := UpdateEach(keys, groups, c => Keep(c, p));
      FilteredIs(groups, g, p);
      groups := g;
      r := Ok(this);
    }

    /** `order(comparator)` of every implementation: a fresh map with the
        same keys, each over a fresh copy of its collection, gathered in a
        `TreeMap`. The impl classes copy that tree into a `LinkedHashMap`, so
        their keys come out in comparator order; a `HashMappable` copies it
        into a `HashMap`, so its order is not promised. */
    method OrderBy(o: KeyOrder) returns (r: Mappable<T>)
      requires Valid()
      ensures fresh(r) && r.Valid() && r.kind == kind && r.hashed == hashed
      ensures r.groups == groups && (forall k :: k in r.keys <==> k in keys)
      ensures !hashed ==> SortedBy(o, r.keys)
    {
      var ks: seq<int> := [];
      var copies: map<int, seq<T>> := map[];
      var i := 0;
      while i < |keys|
        invariant 0 <= i <= |keys|
        invariant SortedBy(o, ks)
        invariant forall x :: x in ks <==> x in keys[..i]
        invariant forall x :: x in copies <==> x in ks
        invariant forall x :: x in copies ==> x in groups && copies[x] == groups[x]
      {
        var k := keys[i];
        assert k !in keys[..i];
        CopyOfStored(kind, groups[k]);
        ks := InsertKey(ks, k, o);
        copies := copies[k := CopyOf(kind, groups[k])];
        assert keys[..i + 1] == keys[..i] + [k];
        i := i + 1;
      }
      assert keys[..|keys|] == keys;
      forall x | x in groups ensures x in copies {
        assert x in keys[..|keys|];
      }
      assert forall x :: x in copies.Keys <==> x in groups.Keys;
      assert copies.Keys == groups.Keys;
      assert forall x :: x in copies ==> copies[x] == groups[x];
      assert copies == groups;
      assert Distinct(ks);
      r := new Mappable.FromMap(kind, hashed, Some(JavaMap(ks, copies)));
    }

    /** `order(ascendant)`: natural key order when true, reverse otherwise. */
    method Order(ascendant: bool) returns (r: Mappable<T>)
      requires Valid()
      ensures fresh(r) && r.Valid() && r.kind == kind && r.hashed == hashed
      ensures r.groups == groups && (forall k :: k in r.keys <==> k in keys)
      ensures !hashed ==> SortedBy(if ascendant then Natural else Reverse, r.keys)
    {
      r := OrderBy(if ascendant then Natural else Reverse);
    }

    /** `copy`: a distinct map with the same keys in the same order, each
        over its own copy of the collection. */
    method Copy() returns (r: Mappable<T>)
      requires Valid()
      ensures fresh(r) && r.Valid() && r.kind == kind && r.hashed == hashed
      ensures r.keys == keys && r.groups == groups
    {
      r := new Mappable.Empty(kind, hashed);
      var i := 0;
      while i < |keys|
        invariant 0 <= i <= |keys|
        invariant fresh(r) && r.Valid() && r.kind == kind && r.hashed == hashed
        invariant r.keys == keys[..i]
        invariant forall x :: x in r.groups ==> x in groups && r.groups[x] == groups[x]
      {
        var k := keys[i];
        assert k !in keys[..i];
        CopyOfStored(kind, groups[k]);
        r.Put(k, CopyOf(kind, groups[k]));
        assert keys[..i + 1] == keys[..i] + [k];
        i := i + 1;
      }
      assert keys[..|keys|] == keys;
      forall x | x in groups ensures x in r.groups {
        var j :| 0 <= j < |keys| && keys[j] == x;
        assert r.keys[j] == x;
      }
      assert forall x :: x in r.groups.Keys <==> x in groups.Keys;
      assert r.groups.Keys == groups.Keys;
      assert forall x :: x in r.groups ==> r.groups[x] == groups[x];
      assert r.groups == groups;
    }

    /** `getStoredValues(supplier)`: every element of every collection, in
        `values()` order, added to a fresh collection the supplier makes. */
    method StoredValuesWith(supplier: Option<Kind>) returns (r: Result<seq<T>>)
      requires Valid()
      ensures supplier.None? ==> r == Err(NullPointer)
      ensures supplier.Some? ==> r == Ok(Stored(supplier.value, keys, groups))
    {
      if supplier.None? {
        return Err(NullPointer);
      }
      var into := supplier.value;
      var collection: seq<T> := [];
      var i := 0;
      while i < |keys|
        invariant 0 <= i <= |keys|
        invariant Stored(into, keys, groups) == StoredFrom(collection, into, keys[i..], groups)
      {
        assert keys[i..][1..] == keys[i + 1..];
        collection := AddAll(collection, groups[keys[i]], into);
        i := i + 1;
      }
      r := Ok(collection);
    }

    /** `getStoredValues()`: a `HashSet` for the set impls, an `ArrayList`
        for the list impls, the stored supplier's collection for a
        `HashMappable` -- in each case a collection of this map's kind. */
    method StoredValues() returns (r: seq<T>)
      requires Valid()
      ensures r == Stored(kind, keys, groups)
    {
      var all := StoredValuesWith(Some(kind));
      r := all.value;
    }

    /** `entrySet()`: each key with its collection, in key order. */
    function EntrySet(): seq<(int, seq<T>)>
      reads this
      requires Valid()
    {
      Pairs(keys, groups)
    }

    /** `iterator()`: walks the entries of `entrySet()`. */
    method Iterator() returns (it: seq<(int, seq<T>)>)
      requires Valid()
      ensures it == EntrySet()
      ensures forall e :: e in it <==> e.0 in groups && groups[e.0] == e.1
    {
      PairsCover(keys, groups);
      it := Pairs(keys, groups);
    }

    /** `instance()`: this very map. */
    method Instance() returns (r: Mappable<T>)
      ensures r == this
    {
      r := this;
    }

    /** A fresh LinkedHashMap-backed map of `target` collections with the
        same keys in the same order, each collection's elements passed
        through `f` and collected into a fresh `target` collection. */
    method MapGroups<U(==)>(f: T -> U, target: Kind) returns (r: Mappable<U>)
      requires Valid()
      ensures fresh(r) && r.Valid() && r.kind == target && !r.hashed && r.keys == keys
      ensures r.groups.Keys == groups.Keys
      ensures forall k :: k in groups ==> r.groups[k] == Converted(target, f, groups[k])
    {
      r := new Mappable<U>.Empty(target, false);
      var i := 0;
      while i < |keys|
        invariant 0 <= i <= |keys|
        invariant fresh(r) && r.Valid() && r.kind == target && !r.hashed
        invariant r.keys == keys[..i]
        invariant forall x :: x in r.groups ==> x in groups && r.groups[x] == Converted(target, f, groups[x])
      {
        var k := keys[i];
        assert k !in keys[..i];
        r.Put(k, Converted(target, f, groups[k]));
        assert keys[..i + 1] == keys[..i] + [k];
        i := i + 1;
      }
      assert keys[..|keys|] == keys;
      forall x | x in groups ensures x in r.groups {
        var j :| 0 <= j < |keys| && keys[j] == x;
        assert r.keys[j] == x;
      }
      assert forall x :: x in r.groups.Keys <==> x in groups.Keys;
    }

    /** `SetImpl.toList`: the same keys, each set's elements now a list in
        the set's iteration order. */
    method ToList() returns (r: Mappable<T>)
      requires Valid() && kind == SetKind && !hashed
      ensures fresh(r) && r.Valid() && r.kind == ListKind && !r.hashed
      ensures r.keys == keys && r.groups == groups
    {
      r := MapGroups(x => x, ListKind);
      forall k | k in groups ensures r.groups[k] == groups[k] {
        assert MapSeq(x => x, groups[k]) == groups[k];
        CopyOfStored(ListKind, groups[k]);
      }
    }

    /** `ListImpl.toSet`: the same keys, each list's elements collected into
        a set, so that repeated elements appear once. */
    method ToSet() returns (r: Mappable<T>)
      requires Valid() && kind == ListKind && !hashed
      ensures fresh(r) && r.Valid() && r.kind == SetKind && !r.hashed && r.keys == keys
      ensures r.groups.Keys == groups.Keys
      ensures forall k :: k in groups ==> Distinct(r.groups[k]) && forall x :: x in r.groups[k] <==> x in groups[k]
    {
      r := MapGroups(x => x, SetKind);
      forall k | k in groups
        ensures Distinct(r.groups[k]) && forall x :: x in r.groups[k] <==> x in groups[k]
      {
        assert MapSeq(x => x, groups[k]) == groups[k];
        CopyOfIntoSet(groups[k]);
      }
    }

    /** `toUnits(function)`: a null function is rejected; otherwise the same
        keys, each collection's elements mapped through the function and
        collected into a collection of this map's kind. */
    method ToUnits<U(==)>(convert: Option<T -> U>) returns (r: Result<Mappable<U>>)
      requires Valid() && !hashed
      ensures convert.None? ==> r == Err(NullPointer)
      ensures convert.Some? ==> r.Ok? && fresh(r.value) && r.value.Valid()
      ensures convert.Some? ==> r.value.kind == kind && !r.value.hashed && r.value.keys == keys
      ensures convert.Some? ==> r.value.groups.Keys == groups.Keys
      ensures convert.Some? ==> forall k :: k in groups ==> r.value.groups[k] == Converted(kind, convert.value, groups[k])
    {
      if convert.None? {
        return Err(NullPointer);
      }
      var units := MapGroups(convert.value, kind);
      r := Ok(units);
    }
  }

  /** `new HashMappable<>(supplier)`: a null supplier is rejected. */
  method NewHashMappable<T(==)>(supplier: Option<Kind>) returns (r: Result<Mappable<T>>)
    ensures supplier.None? ==> r == Err(NullPointer)
    ensures supplier.Some? ==> r.Ok? && fresh(r.value) && r.value.Valid() && r.value.hashed
    ensures supplier.Some? ==> r.value.kind == supplier.value && r.value.keys == [] && r.value.groups == map[]
  {
    if supplier.None? {
      return Err(NullPointer);
    }
    var m := new Mappable<T>.Empty(supplier.value, true);
    r := Ok(m);
  }

  /** `new HashMappable<>(supplier, map)`: the `HashMap` copy of a null map
      and a null supplier are both rejected; otherwise exactly the given
      entries. */
  method NewHashMappableOf<T(==)>(supplier: Option<Kind>, source: Option<JavaMap<T>>) returns (r: Result<Mappable<T>>)
    requires supplier.Some? && source.Some? ==> WellFormed(supplier.value, source.value)
    ensures supplier.None? || source.None? ==> r == Err(NullPointer)
    ensures supplier.Some? && source.Some? ==> r.Ok? && fresh(r.value) && r.value.Valid() && r.value.hashed
    ensures supplier.Some? && source.Some? ==> r.value.kind == supplier.value
    ensures supplier.Some? && source.Some? ==> r.value.keys == source.value.keys && r.value.groups == source.value.at
  {
    if source.None? || supplier.None? {
      return Err(NullPointer);
    }
    var m := new Mappable<T>.FromMap(supplier.value, true, source);
    r := Ok(m);
  }
}
