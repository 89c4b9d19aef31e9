/** `Configurable`: read helpers over a `FileConfiguration` -- typed reads
    that never throw, list coercions with defaults, sub-section access and
    `toSectionMap`, which groups the child sections of a section by their
    unit priority. */
module Configurable {
  import opened Results
  import opened JavaText
  import opened Sections
  import opened Mappables
  import opened Units

  /** The classes a caller can pass to `get(path, clazz)`, as far as the
      value model tells them apart. */
  datatype JavaClass =
    | StringClass   // String.class
    | IntegerClass  // Integer.class
    | LongClass     // Long.class (a BigInteger counts as one)
    | RealClass     // Double.class or Float.class
    | NumberClass   // Number.class
    | ListClass     // List.class
    | SectionClass  // ConfigurationSection.class
    | ObjectClass   // Object.class

  /** `clazz.isInstance(v)`. */
  predicate InstanceOf(v: Value, clazz: JavaClass) {
    match clazz
    case StringClass => v.Str?
    case IntegerClass => v.Int?
    case LongClass => v.Long?
    case RealClass => v.Real?
    case NumberClass => v.Int? || v.Long? || v.Real?
    case ListClass => v.Items?
    case SectionClass => v.Sub?
    case ObjectClass => true
  }

  /** `Number.class` admits exactly the values that have an `intValue`. */
  lemma NumberInstances(v: Value)
    ensures InstanceOf(v, NumberClass) <==> IntValue(v).Some?
    ensures InstanceOf(v, NumberClass) <==>
      InstanceOf(v, IntegerClass) || InstanceOf(v, LongClass) || InstanceOf(v, RealClass)
  {
  }

  /** `get(path, clazz)`: the value when it is an instance of `clazz`; null
      when it is absent, of another class, or `clazz` is null (the failing
      cast is caught). */
  function GetAs(config: Section, path: string, clazz: Option<JavaClass>): (r: Option<Value>)
    ensures r.Some? <==> clazz.Some? && Contains(config, path) && InstanceOf(Get(config, path).value, clazz.value)
    ensures r.Some? ==> r == Get(config, path)
  {
    if clazz.None? then None
    else match Get(config, path)
      case Some(v) => if InstanceOf(v, clazz.value) then Some(v) else None
      case None => None
  }

  /** A Long at `path` comes back for `Long.class` and `Number.class`, and
      is null for `Integer.class`, whatever its value. */
  lemma GetAsLong(config: Section, path: string, l: int)
    requires Get(config, path) == Some(Long(l))
    ensures GetAs(config, path, Some(LongClass)) == Some(Long(l))
    ensures GetAs(config, path, Some(NumberClass)) == Some(Long(l))
    ensures GetAs(config, path, Some(IntegerClass)).None?
  {
  }

  /** `getConfiguration().get(path, def)`: the value at `path`, `def`
      when there is none. */
  function GetOr(config: Section, path: string, def: Value): (r: Value)
    ensures Contains(config, path) ==> Some(r) == Get(config, path)
    ensures !Contains(config, path) ==> r == def
  {
    match Get(config, path)
    case Some(v) => v
    case None => def
  }

  /** `getList(path, def)`: never empty. A list yields its elements (all of
      them: the cast to `T` is unchecked), or `[def]` when it has none; any
      other path yields `[get(path, def)]`. */
  method GetList(config: Section, path: string, def: Value) returns (list: seq<Value>)
    ensures list != []
    ensures IsList(config, path) && Get(config, path).value.items != [] ==> list == Get(config, path).value.items
    ensures IsList(config, path) && Get(config, path).value.items == [] ==> list == [def]
    ensures !IsList(config, path) ==> list == [GetOr(config, path, def)]
  {
    if IsList(config, path) {
      var raw := Get(config, path).value.items;
      list := [];
      var i := 0;
      while i < |raw|
        invariant 0 <= i <= |raw|
        invariant list == raw[..i]
      {
        list := list + [raw[i]];
        i := i + 1;
      }
      assert raw[..|raw|] == raw;
      if list == [] {
        list := [def];
      }
      return;
    }
    list := [GetOr(config, path, def)];
  }

  /** `getSection(path)`: a blank or null path is the whole configuration,
      any other the section at that path, or null. */
  function GetSection(config: Section, path: Option<string>): (r: Option<Section>)
    ensures BlankOrNull(path) ==> r == Some(config)
    ensures !BlankOrNull(path) ==> r == SectionAt(config, path.value)
  {
    if BlankOrNull(path) then Some(config) else SectionAt(config, path.value)
  }

  /** `getKeys(path, deep)`: the keys of the section, none when it is
      missing. */
  function GetKeys(config: Section, path: Option<string>, deep: bool): (r: seq<string>)
    ensures GetSection(config, path).None? ==> r == []
    ensures GetSection(config, path).Some? ==> r == Keys(GetSection(config, path).value, deep)
  {
    match GetSection(config, path)
    case Some(s) => Keys(s, deep)
    case None => []
  }

  /** `LinkedHashMap.put` on an entry list: a present key keeps its place. */
  function PutEntry(es: seq<(string, Section)>, k: string, c: Section): (r: seq<(string, Section)>)
    ensures forall e :: e in r ==> e in es || e == (k, c)
    ensures (k, c) in r
    ensures forall e :: e in es && e.0 != k ==> e in r
  {
    if es == [] then [(k, c)]
    else if es[0].0 == k then [(k, c)] + es[1..]
    else [es[0]] + PutEntry(es[1..], k, c)
  }

  /** `getConfigurationSection(key)` of `s`, as a function of the key. */
  function ChildLookup(s: Section): string -> Option<Section>
  {
    k => SectionAt(s, k)
  }

  /** The entries `getSections` builds from the keys `ks`: every key whose
      value is a section, with that section, in key order. */
  function SectionsOf(lookup: string -> Option<Section>, ks: seq<string>): (r: seq<(string, Section)>)
    ensures forall e :: e in r ==> e.0 in ks && lookup(e.0) == Some(e.1)
  {
    if ks == [] then []
    else
      var before := SectionsOf(lookup, ks[..|ks| - 1]);
      var k := ks[|ks| - 1];
      assert forall e :: e in before ==> e.0 in ks by {
        forall e | e in before ensures e.0 in ks {
          var i :| 0 <= i < |ks[..|ks| - 1]| && ks[..|ks| - 1][i] == e.0;
          assert ks[i] == e.0;
        }
      }
      match lookup(k)
      case Some(c) => PutEntry(before, k, c)
      case None => before
  }

  /** Every key naming a section is present in the entries. */
  lemma {:induction false} SectionsOfComplete(lookup: string -> Option<Section>, ks: seq<string>, k: string)
    requires k in ks && lookup(k).Some?
    ensures (k, lookup(k).value) in SectionsOf(lookup, ks)
    decreases |ks|
  {
    var last := ks[|ks| - 1];
    var front := ks[..|ks| - 1];
    if k != last {
      assert k in front by {
        var i :| 0 <= i < |ks| && ks[i] == k;
        assert front[i] == k;
      }
      SectionsOfComplete(lookup, front, k);
      var before := SectionsOf(lookup, front);
      assert (k, lookup(k).value) in before;
      match lookup(last)
      case Some(c) => assert (k, lookup(k).value).0 != last;
      case None =>
    }
  }

  /** The loop of `getSections` over the keys of `s`. */
  method CollectSections(lookup: string -> Option<Section>, keys: seq<string>) returns (r: seq<(string, Section)>)
    ensures r == SectionsOf(lookup, keys)
  {
    r := [];
    var i := 0;
    while i < |keys|
      invariant 0 <= i <= |keys|
      invariant r == SectionsOf(lookup, keys[..i])
    {
      assert keys[..i + 1][..i] == keys[..i];
      var c := lookup(keys[i]);
      if c.Some? {
        r := PutEntry(r, keys[i], c.value);
      }
      i := i + 1;
    }
    assert keys[..|keys|] == keys;
  }

  /** `getSections(path, deep)`: the keys of the section that hold sections,
      with those sections, in key order; an empty map when the section is
      missing. */
  method GetSections(config: Section, path: Option<string>, deep: bool) returns (r: seq<(string, Section)>)
    ensures GetSection(config, path).None? ==> r == []
    ensures GetSection(config, path).Some? ==>
      r == SectionsOf(ChildLookup(GetSection(config, path).value), GetKeys(config, path, deep))
  {
    var section := GetSection(config, path);
    if section.None? {
      return [];
    }
    r := CollectSections(ChildLookup(section.value), Keys(section.value, deep));
  }

  /** What `getSections` holds: exactly the pairs of a key and the section
      under it. */
  lemma GetSectionsEntries(s: Section, deep: bool)
    ensures forall e :: e in SectionsOf(ChildLookup(s), Keys(s, deep)) ==>
      e.0 in Keys(s, deep) && SectionAt(s, e.0) == Some(e.1)
    ensures forall k :: k in Keys(s, deep) && SectionAt(s, k).Some? ==>
      (k, SectionAt(s, k).value) in SectionsOf(ChildLookup(s), Keys(s, deep))
  {
    forall k | k in Keys(s, deep) && SectionAt(s, k).Some?
      ensures (k, SectionAt(s, k).value) in SectionsOf(ChildLookup(s), Keys(s, deep))
    {
      assert ChildLookup(s)(k) == SectionAt(s, k);
      SectionsOfComplete(ChildLookup(s), Keys(s, deep), k);
    }
  }

  /** `toStringList(section, path, def)`: `def` for a null section, an
      absent value or an empty list; the text of every element of a
      non-empty list, which fails with a NullPointerException when an
      element is null; the text of any other value as a one-element list. */
  method ToStringList(section: Option<Section>, path: string, def: seq<string>) returns (r: Result<seq<string>>)
    ensures section.None? ==> r == Ok(def)
    ensures section.Some? && !Contains(section.value, path) ==> r == Ok(def)
    ensures section.Some? && Contains(section.value, path) && !IsList(section.value, path) ==>
      r == Ok([ToText(Get(section.value, path).value)])
    ensures section.Some? && IsList(section.value, path) && Get(section.value, path).value.items == [] ==> r == Ok(def)
    ensures section.Some? && IsList(section.value, path) && Get(section.value, path).value.items != [] ==>
      var items := Get(section.value, path).value.items;
      (r.Err? <==> Null in items) && (r.Err? ==> r.failure == NullPointer) &&
      (r.Ok? ==> |r.value| == |items| && forall i :: 0 <= i < |items| ==> r.value[i] == ToText(items[i]))
  {
    if section.None? {
      return Ok(def);
    }
    var s := section.value;
    if !IsList(s, path) {
      var temp := Get(s, path);
      r := if temp.Some? then Ok([ToText(temp.value)]) else Ok(def);
      return;
    }
    var raw := Get(s, path).value.items;
    if raw != [] {
      var list := [];
      var i := 0;
      while i < |raw|
        invariant 0 <= i <= |raw|
        invariant Null !in raw[..i]
        invariant |list| == i && forall j :: 0 <= j < i ==> list[j] == ToText(raw[j])
      {
        if raw[i] == Null {
          return Err(NullPointer);
        }
        assert raw[..i + 1] == raw[..i] + [raw[i]];
        list := list + [ToText(raw[i])];
        i := i + 1;
      }
      assert raw[..|raw|] == raw;
      return Ok(list);
    }
    r := Ok(def);
  }

  /** `toStringList(section, path)`: the same with an empty default, so the
      list is empty exactly when there is no section, no value, or an empty
      list. */
  method ToStringListOrEmpty(section: Option<Section>, path: string) returns (r: Result<seq<string>>)
    ensures r == Ok([]) <==>
      section.None? || !Contains(section.value, path) ||
      (IsList(section.value, path) && Get(section.value, path).value.items == [])
    ensures r.Err? <==> section.Some? && IsList(section.value, path) && Null in Get(section.value, path).value.items
    ensures section.Some? && Contains(section.value, path) && !IsList(section.value, path) ==>
      r == Ok([ToText(Get(section.value, path).value)])
    ensures section.Some? && IsList(section.value, path) && r.Ok? ==>
      var items := Get(section.value, path).value.items;
      |r.value| == |items| && forall i :: 0 <= i < |items| ==> r.value[i] == ToText(items[i])
  {
    r := ToStringList(section, path, []);
  }

  /** `getInt("priority", def)` of a child section, as `toSectionMap` ranks
      it. */
  function ByPriority(): Section -> int
  {
    c => PriorityOf(c) as int
  }

  /** The grouping `toSectionMap` builds from the keys `ks`: each key whose
      value is a section adds that section to the set under its rank. */
  function GroupedBy(lookup: string -> Option<Section>, rank: Section -> int, ks: seq<string>): map<int, seq<Section>>
  {
    if ks == [] then map[]
    else
      var g := GroupedBy(lookup, rank, ks[..|ks| - 1]);
      match lookup(ks[|ks| - 1])
      case None => g
      case Some(id) =>
        var p := rank(id);
        g[p := Add(if p in g then g[p] else [], id, SetKind)]
  }

  lemma AddToSet(c: seq<Section>, x: Section)
    requires Distinct(c)
    ensures Distinct(Add(c, x, SetKind))
    ensures forall y :: y in Add(c, x, SetKind) <==> y in c || y == x
  {
    if x !in c {
      forall i, j | 0 <= i < j < |c + [x]| ensures (c + [x])[i] != (c + [x])[j] {
        if j == |c| { assert (c + [x])[i] == c[i]; }
      }
    }
  }

  /** The last key of `ks` and the ones before it are all of `ks`. */
  lemma FrontAndLast(ks: seq<string>)
    requires ks != []
    ensures forall k :: k in ks <==> k in ks[..|ks| - 1] || k == ks[|ks| - 1]
  {
    forall k | k in ks ensures k in ks[..|ks| - 1] || k == ks[|ks| - 1] {
      var i :| 0 <= i < |ks| && ks[i] == k;
      if i < |ks| - 1 { assert ks[..|ks| - 1][i] == k; }
    }
  }

  /** Every group is a set. */
  lemma {:induction false} GroupedDistinct(lookup: string -> Option<Section>, rank: Section -> int, ks: seq<string>)
    ensures forall p :: p in GroupedBy(lookup, rank, ks) ==> Distinct(GroupedBy(lookup, rank, ks)[p])
    decreases |ks|
  {
    if ks != [] {
      var front := ks[..|ks| - 1];
      GroupedDistinct(lookup, rank, front);
      var g := GroupedBy(lookup, rank, front);
      match lookup(ks[|ks| - 1])
      case None =>
      case Some(id) =>
        var p := rank(id);
        var group := if p in g then g[p] else [];
        assert p in g ==> Distinct(g[p]);
        assert Distinct(group);
        AddToSet(group, id);
    }
  }

  /** A section sits under a rank only if some key names it and it has that
      rank. */
  lemma {:induction false} GroupedSound(lookup: string -> Option<Section>, rank: Section -> int, ks: seq<string>)
    ensures forall p, c :: p in GroupedBy(lookup, rank, ks) && c in GroupedBy(lookup, rank, ks)[p] ==>
      exists k :: k in ks && lookup(k) == Some(c) && rank(c) == p
    decreases |ks|
  {
    if ks != [] {
      var front := ks[..|ks| - 1];
      var last := ks[|ks| - 1];
      GroupedSound(lookup, rank, front);
      FrontAndLast(ks);
      var g := GroupedBy(lookup, rank, front);
      match lookup(last)
      case None =>
        assert GroupedBy(lookup, rank, ks) == g;
        forall p, c | p in g && c in g[p]
          ensures exists k :: k in ks && lookup(k) == Some(c) && rank(c) == p
        {
          var k :| k in front && lookup(k) == Some(c) && rank(c) == p;
          assert k in ks;
        }
      case Some(id) =>
        var q := rank(id);
        var group := if q in g then g[q] else [];
        var g' := g[q := Add(group, id, SetKind)];
        assert g' == GroupedBy(lookup, rank, ks);
        forall p, c | p in g' && c in g'[p]
          ensures exists k :: k in ks && lookup(k) == Some(c) && rank(c) == p
        {
          if p == q && c == id {
            assert last in ks && lookup(last) == Some(c);
          } else if p == q {
            assert c in group;
            var k :| k in front && lookup(k) == Some(c) && rank(c) == p;
            assert k in ks;
          } else {
            var k :| k in front && lookup(k) == Some(c) && rank(c) == p;
            assert k in ks;
          }
        }
    } else {
      assert GroupedBy(lookup, rank, ks) == map[];
    }
  }

  /** Every section a key names sits under its rank. */
  lemma {:induction false} GroupedComplete(lookup: string -> Option<Section>, rank: Section -> int, ks: seq<string>)
    ensures forall k :: k in ks && lookup(k).Some? ==>
      rank(lookup(k).value) in GroupedBy(lookup, rank, ks)
      && lookup(k).value in GroupedBy(lookup, rank, ks)[rank(lookup(k).value)]
    decreases |ks|
  {
    if ks != [] {
      var front := ks[..|ks| - 1];
      GroupedComplete(lookup, rank, front);
      FrontAndLast(ks);
      GroupedDistinct(lookup, rank, front);
      var g := GroupedBy(lookup, rank, front);
      match lookup(ks[|ks| - 1])
      case None =>
      case Some(id) =>
        var p := rank(id);
        var group := if p in g then g[p] else [];
        assert p in g ==> Distinct(g[p]);
        assert Distinct(group);
        AddToSet(group, id);
    }
  }

  /** A distinct list of the keys of a map. */
  predicate ListsKeys(order: seq<int>, g: map<int, seq<Section>>) {
    Distinct(order) && Covered(order, g) && forall k :: k in g ==> k in order
  }

  /** `toSectionMap(section, path)`: the child sections of the section (of
      its sub-section at `path`, when the path is not blank), grouped into
      sets by priority, with the priorities in descending order; an empty map
      when there is no such section. */
  method ToSectionMap(section: Option<Section>, path: Option<string>) returns (r: Mappable<Section>)
    ensures fresh(r) && r.Valid() && r.kind == SetKind && !r.hashed
    ensures SortedBy(Reverse, r.keys)
    ensures TargetOf(section, path).None? ==> r.keys == [] && r.groups == map[]
    ensures TargetOf(section, path).Some? ==>
      var s := TargetOf(section, path).value;
      r.groups == GroupedBy(ChildLookup(s), ByPriority(), Names(s.entries))
  {
    var target := TargetOf(section, path);
    if target.None? {
      r := new Mappable<Section>.Empty(SetKind, false);
      return;
    }
    var s := target.value;
    var sectionKeys := Names(s.entries);
    if sectionKeys == [] {
      r := new Mappable<Section>.Empty(SetKind, false);
      return;
    }
    var groups := Group(ChildLookup(s), ByPriority(), sectionKeys);
    r := groups.Order(false);
  }

  /** The loop of `toSectionMap`, ending in `SectionMappable.asSet(map)`. */
  method Group(lookup: string -> Option<Section>, rank: Section -> int, sectionKeys: seq<string>) returns (r: Mappable<Section>)
    ensures fresh(r) && r.Valid() && r.kind == SetKind && !r.hashed
    ensures r.groups == GroupedBy(lookup, rank, sectionKeys)
  {
    var map_: map<int, seq<Section>> := map[];
    var order: seq<int> := [];
    var i := 0;
    while i < |sectionKeys|
      invariant 0 <= i <= |sectionKeys|
      invariant map_ == GroupedBy(lookup, rank, sectionKeys[..i])
      invariant ListsKeys(order, map_)
    {
      assert sectionKeys[..i + 1][..i] == sectionKeys[..i];
      var id := lookup(sectionKeys[i]);
      if id.Some? {
        var priority := rank(id.value);
        var m := if priority in map_ then map_[priority] else [];
        if priority !in map_ {
          order := order + [priority];
        }
        map_ := map_[priority := Add(m, id.value, SetKind)];
      }
      i := i + 1;
    }
    assert sectionKeys[..|sectionKeys|] == sectionKeys;
    GroupedDistinct(lookup, rank, sectionKeys);
    r := new Mappable<Section>.FromMap(SetKind, false, Some(JavaMap(order, map_)));
  }

  /** What `toSectionMap` holds: under each priority, exactly the child
      sections (named by `ks`, the keys of the section) of that priority,
      once each; a priority is present exactly when some child section has
      it. */
  lemma SectionMapGroups(s: Section, ks: seq<string>, g: map<int, seq<Section>>)
    requires g == GroupedBy(ChildLookup(s), ByPriority(), ks)
    ensures forall p :: p in g ==> Distinct(g[p])
    ensures forall p, c :: p in g && c in g[p] ==>
      exists k :: k in ks && SectionAt(s, k) == Some(c) && PriorityOf(c) as int == p
    ensures forall k, c :: k in ks && SectionAt(s, k) == Some(c) ==>
      PriorityOf(c) as int in g && c in g[PriorityOf(c) as int]
  {
    var lookup := ChildLookup(s);
    var rank := ByPriority();
    assert forall k :: lookup(k) == SectionAt(s, k);
    assert forall c :: rank(c) == PriorityOf(c) as int;
    GroupedDistinct(lookup, rank, ks);
    GroupedSound(lookup, rank, ks);
    GroupedComplete(lookup, rank, ks);
  }

  /** The section `toSectionMap` reads: the given one, or its sub-section at
      a non-blank path. */
  function TargetOf(section: Option<Section>, path: Option<string>): Option<Section>
  {
    if !BlankOrNull(path) && section.Some? then SectionAt(section.value, path.value) else section
  }
}
