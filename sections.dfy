/** The part of Bukkit's `ConfigurationSection` / `FileConfiguration`
    contract that the core consumes, as a value: an ordered map from key
    names to values, where a value may itself be a section.

    Path lookup follows `MemorySection.get`: a path is cut at every `.`,
    each segment but the last selects a nested section (an empty segment
    selects the section itself), and the empty path denotes the section
    itself. Default sections (`addDefaults`) are not modelled: every
    configuration in the core is loaded without defaults. */
module Sections {
  import opened Results
  import opened JavaText

  /** A value that fits a Java `int`. */
  type int32 = x: int | -0x8000_0000 <= x < 0x8000_0000

  /** A value stored in a section. A section never holds null itself
      (`set(path, null)` removes the key), but a list may. */
  datatype Value =
    | Str(s: string)                      // a java.lang.String
    | Int(n: int32)                       // a java.lang.Integer
    | Long(l: int)                        // a java.lang.Long or java.math.BigInteger
    | Real(text: string, whole: int32)    // a java.lang.Double or Float: its toString and its intValue
    | Other(text: string)                 // any other scalar (a Boolean, a Date, ...), by its toString
    | Null                                // a null element of a list
    | Items(items: seq<Value>)            // a java.util.List
    | Sub(section: Section)               // a nested ConfigurationSection

  /** `Number.intValue` of an integral number: its low 32 bits, read as a
      two's-complement `int`. */
  function Wrap32(l: int): (r: int32)
    ensures (r - l) % 0x1_0000_0000 == 0
  {
    var m := l % 0x1_0000_0000;
    if m < 0x8000_0000 then m else m - 0x1_0000_0000
  }

  /** A number that already fits an `int` keeps its value. */
  lemma Wrap32Fits(n: int32)
    ensures Wrap32(n) == n
  {
    var r := Wrap32(n);
    var d := (r - n) / 0x1_0000_0000;
    assert r - n == d * 0x1_0000_0000;
    assert -0x1_0000_0000 < r - n < 0x1_0000_0000;
  }

  /** `((Number) v).intValue()` when `v` is a `java.lang.Number`, none
      otherwise. */
  function IntValue(v: Value): (r: Option<int32>)
    ensures r.Some? <==> v.Int? || v.Long? || v.Real?
    ensures v.Int? ==> r == Some(v.n)
    ensures v.Long? ==> r.Some? && (r.value - v.l) % 0x1_0000_0000 == 0
    ensures v.Real? ==> r == Some(v.whole)
  {
    match v
    case Int(n) => Some(n)
    case Long(l) => Some(Wrap32(l))
    case Real(_, whole) => Some(whole)
    case _ => None
  }

  /** A section: its full path from the root of its configuration, and its
      entries in insertion order (a LinkedHashMap in Bukkit). */
  datatype Section = Section(path: string, entries: seq<(string, Value)>)

  /** The entry named `name`, if any (the first one, should names repeat). */
  function Lookup(entries: seq<(string, Value)>, name: string): (r: Option<Value>)
    ensures r.Some? <==> exists i :: 0 <= i < |entries| && entries[i].0 == name
    ensures r.Some? ==> exists i :: 0 <= i < |entries| && entries[i] == (name, r.value)
  {
    if entries == [] then None
    else if entries[0].0 == name then Some(entries[0].1)
    else
      var r := Lookup(entries[1..], name);
      assert forall i :: 1 <= i < |entries| ==> entries[i] == entries[1..][i - 1];
      r
  }

  /** `getKeys(false)`: the direct key names, in order. */
  function Names(entries: seq<(string, Value)>): (r: seq<string>)
    ensures |r| == |entries| && forall i :: 0 <= i < |r| ==> r[i] == entries[i].0
  {
    if entries == [] then [] else [entries[0].0] + Names(entries[1..])
  }

  /** One segment of a path: the empty segment is the section itself. */
  function Step(s: Section, segment: string): Option<Value>
  {
    if segment == "" then Some(Sub(s)) else Lookup(s.entries, segment)
  }

  /** Walks the segments of a path. `moved` records whether a non-empty
      segment has been passed: until then the walk is still at the section
      it started from, and `MemorySection.get` reads the last segment from
      that section's own map, so an empty last segment there is the empty
      key rather than the section itself. */
  function Navigate(s: Section, segments: seq<string>, moved: bool): Option<Value>
    requires segments != []
    decreases |segments|
  {
    if |segments| == 1 then
      if moved then Step(s, segments[0]) else Lookup(s.entries, segments[0])
    else
      match Step(s, segments[0])
      case Some(Sub(c)) => Navigate(c, segments[1..], moved || segments[0] != "")
      case _ => None
  }

  /** `get(path)`: the value at a dotted path, or null (None). */
  function Get(s: Section, path: string): Option<Value>
  {
    if path == "" then Some(Sub(s)) else Navigate(s, Pieces(path, "."), false)
  }

  /** A path without a separator is a plain key of the section. */
  lemma GetPlainKey(s: Section, path: string)
    requires '.' !in path && path != ""
    ensures Get(s, path) == Lookup(s.entries, path)
  {
    PiecesNoSeparator(path, '.');
  }

  /** `contains(path)`. */
  predicate Contains(s: Section, path: string) {
    Get(s, path).Some?
  }

  /** `getConfigurationSection(path)`: the section at `path`, or null. */
  function SectionAt(s: Section, path: string): (r: Option<Section>)
    ensures r.Some? <==> Get(s, path).Some? && Get(s, path).value.Sub?
  {
    match Get(s, path)
    case Some(Sub(c)) => Some(c)
    case _ => None
  }

  /** `isList(path)`. */
  predicate IsList(s: Section, path: string) {
    Get(s, path).Some? && Get(s, path).value.Items?
  }

  /** The root of its configuration: Bukkit refuses an empty key, so the
      empty path belongs to the root alone. */
  predicate IsRoot(c: Section) {
    c.path == ""
  }

  /** `Object.toString` of a value. A section prints the way
      `MemorySection.toString` does in a loaded file: its class's simple
      name (`YamlConfiguration` for the root, `MemorySection` for any
      other), its path, and the root's class name. */
  function ToText(v: Value): string
  {
    match v
    case Str(s) => s
    case Int(n) => IntText(n)
    case Long(l) => IntText(l)
    case Real(text, _) => text
    case Other(text) => text
    case Null => "null"
    case Items(items) => "[" + ItemsText(items) + "]"
    case Sub(c) =>
      (if IsRoot(c) then "YamlConfiguration" else "MemorySection")
      + "[path='" + c.path + "', root='YamlConfiguration']"
  }

  /** `AbstractCollection.toString` between the brackets. */
  function ItemsText(items: seq<Value>): string
  {
    if items == [] then ""
    else if |items| == 1 then ToText(items[0])
    else ToText(items[0]) + ", " + ItemsText(items[1..])
  }

  /** `get("")` of the root is the configuration itself, which prints as a
      `YamlConfiguration`; a nested section prints as a `MemorySection`
      with its own path. */
  lemma SectionText(s: Section, c: Section)
    requires IsRoot(s) && !IsRoot(c)
    ensures ToText(Get(s, "").value) == "YamlConfiguration[path='', root='YamlConfiguration']"
    ensures ToText(Sub(c)) == "MemorySection[path='" + c.path + "', root='YamlConfiguration']"
  {
  }

  /** `getString(path, def)`: the value's text, or `def` when absent. */
  function GetString(s: Section, path: string, def: string): string
  {
    match Get(s, path)
    case Some(v) => ToText(v)
    case None => def
  }

  /** `getString(path)`: the value's text, or null. */
  function GetStringOrNull(s: Section, path: string): Option<string>
  {
    match Get(s, path)
    case Some(v) => Some(ToText(v))
    case None => None
  }

  /** A number is stored at `path`. */
  predicate NumberAt(s: Section, path: string) {
    Get(s, path).Some? && IntValue(Get(s, path).value).Some?
  }

  /** `getInt(path, def)`: the `intValue` of the value when it is a
      number of any class, else `def`. */
  function GetInt(s: Section, path: string, def: int32): (r: int32)
    ensures NumberAt(s, path) ==> Some(r) == IntValue(Get(s, path).value)
    ensures !NumberAt(s, path) ==> r == def
  {
    match Get(s, path)
    case Some(v) => if IntValue(v).Some? then IntValue(v).value else def
    case None => def
  }

  /** `getKeys(true)`: every path below the section, relative to it, each
      parent before its children, in declaration order. */
  function DeepKeys(s: Section): seq<string>
    decreases s, 1
  {
    DeepKeysOf(s.entries)
  }

  function DeepKeysOf(entries: seq<(string, Value)>): seq<string>
    decreases entries, 0
  {
    if entries == [] then []
    else
      var name := entries[0].0;
      var below := match entries[0].1
        case Sub(c) =>
          assert c < entries[0].1 < entries[0];
          Qualify(name, DeepKeys(c))
        case _ => [];
      [name] + below + DeepKeysOf(entries[1..])
  }

  /** Child paths re-rooted under `name`. */
  function Qualify(name: string, paths: seq<string>): (r: seq<string>)
    ensures |r| == |paths| && forall i :: 0 <= i < |r| ==> r[i] == name + "." + paths[i]
  {
    if paths == [] then [] else [name + "." + paths[0]] + Qualify(name, paths[1..])
  }

  /** `getKeys(deep)`. */
  function Keys(s: Section, deep: bool): seq<string>
  {
    if deep then DeepKeys(s) else Names(s.entries)
  }

  /** Every direct key is among the deep keys. */
  lemma {:induction false} NamesAreDeepKeys(entries: seq<(string, Value)>, i: nat)
    requires i < |entries|
    ensures entries[i].0 in DeepKeysOf(entries)
    decreases i
  {
    if i > 0 {
      NamesAreDeepKeys(entries[1..], i - 1);
    }
  }
}
