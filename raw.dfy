/** The raw tree SnakeYAML builds when the updater loads the user's file
    itself (to copy ignored sections verbatim), and the key coercion the
    updater performs on it.

    Bukkit turns every key into a string when it builds a section, but the
    raw tree keeps typed keys: `1.5:` is a Float/Double key, `10:` an
    Integer key, `yes:` a Boolean key, `~:` the null key. A dotted path
    written by a user is text, so the updater has to guess the key object
    that a path segment stands for (`YAMLUpdater.getKeyAsObject`). */
module RawYaml {
  import opened Results
  import opened JavaText
  import Sections

  /** A key of a raw YAML mapping, by Java class. Equal keys are equal as
      Java objects (`equals`): a Float and a Double are never equal, nor an
      Integer and a Long, nor a number and a string. */
  datatype Key =
    | NullKey                 // the null key
    | Text(s: string)         // java.lang.String
    | F32(repr: string)       // java.lang.Float, by its Float.toString
    | F64(repr: string)       // java.lang.Double, by its Double.toString
    | I32(i: int)             // java.lang.Integer
    | I64(i: int)             // java.lang.Long
    | OtherKey(repr: string)  // any other key object, by its toString

  /** A node of the raw tree. */
  datatype Node =
    | Scalar(repr: string)                // a scalar (or null), by its YAML text
    | Many(items: seq<Node>)              // a sequence: a java.util.Collection
    | Mapping(entries: seq<(Key, Node)>)  // a mapping: a java.util.Map, in file order

  /** A measure of a raw tree that nested maps decrease. */
  function NodeSize(n: Node): nat
    decreases n, 1
  {
    match n
    case Mapping(es) => 1 + EntriesSize(es)
    case _ => 1
  }

  function EntriesSize(es: seq<(Key, Node)>): nat
    decreases es, 0
  {
    if es == [] then 0
    else
      assert es[0].1 < es[0];
      NodeSize(es[0].1) + EntriesSize(es[1..])
  }

  /** A value held in a map is no larger than the map. */
  lemma {:induction false} NodeWithin(m: seq<(Key, Node)>, i: nat)
    requires i < |m|
    ensures NodeSize(m[i].1) <= EntriesSize(m)
    decreases i
  {
    if i > 0 {
      NodeWithin(m[1..], i - 1);
    }
  }

  /** What the model takes from libraries it does not describe:
      `Float.parseFloat` and `Double.parseDouble` (the canonical
      `toString` of the parsed number, or None when the text is not a
      number), SnakeYAML's `Yaml.dump` in block style with Unix line
      breaks, and `YamlConfiguration.saveToString` of a configuration
      holding one key. */
  datatype Ext = Ext(
    parseFloat: string -> Option<string>,
    parseDouble: string -> Option<string>,
    dump: Node -> string,
    save: (string, Option<Sections.Value>) -> string)

  predicate IsDigit(c: char) {
    '0' <= c <= '9'
  }

  function DigitValue(s: string): (n: nat)
    requires forall i :: 0 <= i < |s| ==> IsDigit(s[i])
  {
    if s == [] then 0
    else
      assert IsDigit(s[|s| - 1]);
      DigitValue(s[..|s| - 1]) * 10 + (s[|s| - 1] as int - '0' as int)
  }

  /** The decimal number `s` spells with an optional sign, as
      `Integer.parseInt` and `Long.parseLong` read it, before the range
      check. */
  function ParseDecimal(s: string): (r: Option<int>)
    ensures r.Some? ==> s != []
  {
    var neg := s != [] && s[0] == '-';
    var digits := if s != [] && (s[0] == '-' || s[0] == '+') then s[1..] else s;
    if digits != [] && forall i :: 0 <= i < |digits| ==> IsDigit(digits[i]) then
      Some(if neg then -(DigitValue(digits) as int) else DigitValue(digits))
    else None
  }

  /** The largest magnitude below which a Java `int` (bits 32) or `long`
      (bits 64) holds its non-negative values. */
  function Half(bits: nat): nat
  {
    if bits == 32 then 0x8000_0000 else 0x8000_0000_0000_0000
  }

  /** `Integer.parseInt` (bits 32) and `Long.parseLong` (bits 64): the
      number, or None where they throw NumberFormatException. */
  function ParseInt(s: string, bits: nat): (r: Option<int>)
    requires bits == 32 || bits == 64
    ensures r.Some? ==> -(Half(bits) as int) <= r.value < Half(bits)
    ensures r.Some? <==> ParseDecimal(s).Some? && -(Half(bits) as int) <= ParseDecimal(s).value < Half(bits)
  {
    match ParseDecimal(s)
    case Some(n) => if -(Half(bits) as int) <= n < Half(bits) then Some(n) else None
    case None => None
  }

  /** The digits `Integer.toString` writes for a magnitude are digits,
      and read back as that magnitude. */
  lemma {:induction false} DigitsRoundTrip(n: nat)
    ensures DigitsOf(n) != [] && forall i :: 0 <= i < |DigitsOf(n)| ==> IsDigit(DigitsOf(n)[i])
    ensures DigitValue(DigitsOf(n)) == n
    decreases n
  {
    if n >= 10 {
      DigitsRoundTrip(n / 10);
      var d := DigitsOf(n);
      assert d[..|d| - 1] == DigitsOf(n / 10);
      assert forall i :: 0 <= i < |d| - 1 ==> d[i] == DigitsOf(n / 10)[i];
    }
  }

  /** Reading back the decimal text of any number gives the number. */
  lemma ParseDecimalOfText(n: int)
    ensures ParseDecimal(IntText(n)) == Some(n)
  {
    if n < 0 {
      DigitsRoundTrip(-n);
      assert IntText(n)[1..] == DigitsOf(-n);
    } else {
      DigitsRoundTrip(n);
      assert IsDigit(IntText(n)[0]);
    }
  }

  /** `Integer.parseInt(Integer.toString(n))` (bits 32) and
      `Long.parseLong(Long.toString(n))` (bits 64) give `n` back when it
      is in range, and throw otherwise. */
  lemma ParseIntOfText(n: int, bits: nat)
    requires bits == 32 || bits == 64
    ensures ParseInt(IntText(n), bits) == if -(Half(bits) as int) <= n < Half(bits) then Some(n) else None
  {
    ParseDecimalOfText(n);
  }

  /** The index of the first entry whose key is `k`, or -1: where
      `containsKey` and `get` look. */
  function KeyIndex(m: seq<(Key, Node)>, k: Key): (r: int)
    ensures -1 <= r < |m|
    ensures r >= 0 ==> m[r].0 == k
    ensures forall j :: 0 <= j < |m| && (r == -1 || j < r) ==> m[j].0 != k
  {
    if m == [] then -1
    else if m[0].0 == k then 0
    else
      var r := KeyIndex(m[1..], k);
      if r < 0 then -1 else r + 1
  }

  /** `containsKey`. */
  predicate HasKey(m: seq<(Key, Node)>, k: Key) {
    KeyIndex(m, k) >= 0
  }

  /** The key objects a path segment may stand for, in the order the
      updater tries them: the text itself, a Float, a Double, an Integer,
      a Long. */
  function Candidates(key: string, ext: Ext): (r: seq<Key>)
    ensures |r| >= 1 && r[0] == Text(key)
    ensures NullKey !in r
  {
    [Text(key)] + FloatCandidates(key, ext) + IntCandidates(key)
  }

  function FloatCandidates(key: string, ext: Ext): seq<Key>
  {
    (match ext.parseFloat(key) case Some(f) => [F32(f)] case None => [])
    + (match ext.parseDouble(key) case Some(d) => [F64(d)] case None => [])
  }

  function IntCandidates(key: string): seq<Key>
  {
    (match ParseInt(key, 32) case Some(n) => [I32(n)] case None => [])
    + (match ParseInt(key, 64) case Some(n) => [I64(n)] case None => [])
  }

  /** The first of `cs` that `context` holds, or NullKey. */
  function FirstHeld(cs: seq<Key>, context: seq<(Key, Node)>): (r: Key)
    requires NullKey !in cs
    ensures r == NullKey || (r in cs && HasKey(context, r))
    ensures r == NullKey <==> forall c :: c in cs ==> !HasKey(context, c)
  {
    if cs == [] then NullKey
    else if HasKey(context, cs[0]) then cs[0]
    else FirstHeld(cs[1..], context)
  }

  lemma {:induction false} FirstHeldAppend(a: seq<Key>, b: seq<Key>, context: seq<(Key, Node)>)
    requires NullKey !in a && NullKey !in b
    ensures FirstHeld(a + b, context)
      == if FirstHeld(a, context) != NullKey then FirstHeld(a, context) else FirstHeld(b, context)
    decreases |a|
  {
    if a == [] {
      assert a + b == b;
    } else {
      assert (a + b)[1..] == a[1..] + b;
      FirstHeldAppend(a[1..], b, context);
    }
  }

  /** `getKeyAsObject`: the key object under which `context` holds the
      segment `key`, or null (NullKey) when it holds none of the
      candidates. */
  function KeyAsObject(key: string, context: seq<(Key, Node)>, ext: Ext): (r: Key)
    ensures r == NullKey || HasKey(context, r)
    ensures HasKey(context, Text(key)) ==> r == Text(key)
  {
    var f := ext.parseFloat(key);
    var d := ext.parseDouble(key);
    var n := ParseInt(key, 32);
    var l := ParseInt(key, 64);
    if HasKey(context, Text(key)) then Text(key)
    else if f.Some? && HasKey(context, F32(f.value)) then F32(f.value)
    else if d.Some? && HasKey(context, F64(d.value)) then F64(d.value)
    else if n.Some? && HasKey(context, I32(n.value)) then I32(n.value)
    else if l.Some? && HasKey(context, I64(l.value)) then I64(l.value)
    else NullKey
  }

  /** The key found is the first candidate, in the order text, Float,
      Double, Integer, Long, that `context` holds; null means it holds
      none of them. */
  lemma KeyAsObjectIsFirstHeld(key: string, context: seq<(Key, Node)>, ext: Ext)
    ensures KeyAsObject(key, context, ext) == FirstHeld(Candidates(key, ext), context)
  {
    var fl := FloatCandidates(key, ext);
    var it := IntCandidates(key);
    FloatsFirstHeld(key, context, ext);
    IntsFirstHeld(key, context);
    FirstHeldAppend([Text(key)] + fl, it, context);
    FirstHeldAppend([Text(key)], fl, context);
  }

  lemma FloatsFirstHeld(key: string, context: seq<(Key, Node)>, ext: Ext)
    ensures var f := ext.parseFloat(key); var d := ext.parseDouble(key);
      FirstHeld(FloatCandidates(key, ext), context)
      == if f.Some? && HasKey(context, F32(f.value)) then F32(f.value)
         else if d.Some? && HasKey(context, F64(d.value)) then F64(d.value)
         else NullKey
  {
    var f := ext.parseFloat(key);
    var d := ext.parseDouble(key);
    var fs := if f.Some? then [F32(f.value)] else [];
    var ds := if d.Some? then [F64(d.value)] else [];
    assert FloatCandidates(key, ext) == fs + ds;
    FirstHeldAppend(fs, ds, context);
  }

  lemma IntsFirstHeld(key: string, context: seq<(Key, Node)>)
    ensures var n := ParseInt(key, 32); var l := ParseInt(key, 64);
      FirstHeld(IntCandidates(key), context)
      == if n.Some? && HasKey(context, I32(n.value)) then I32(n.value)
         else if l.Some? && HasKey(context, I64(l.value)) then I64(l.value)
         else NullKey
  {
    var n := ParseInt(key, 32);
    var l := ParseInt(key, 64);
    var ns := if n.Some? then [I32(n.value)] else [];
    var ls := if l.Some? then [I64(l.value)] else [];
    assert IntCandidates(key) == ns + ls;
    FirstHeldAppend(ns, ls, context);
  }

  /** The text after the last `.` of a path, as `split("[.]", 2)` applied
      repeatedly reaches it. */
  function LastSegment(full: string): string
    decreases |full|
  {
    var (key, rest) := SplitFirst(full, ".");
    if rest == [] then key else LastSegment(rest[0])
  }

  /** The value stored under `key`'s key object is a map. */
  predicate IsMapAt(m: seq<(Key, Node)>, key: string, ext: Ext) {
    var i := KeyIndex(m, KeyAsObject(key, m, ext));
    i >= 0 && m[i].1.Mapping?
  }

  /** The map stored under `key` in `m`. */
  function MapAt(m: seq<(Key, Node)>, key: string, ext: Ext): seq<(Key, Node)>
    requires IsMapAt(m, key, ext)
  {
    m[KeyIndex(m, KeyAsObject(key, m, ext))].1.entries
  }

  /** The map reached from `m` by looking each segment up, through
      `getKeyAsObject`, in the map the segments before it reached; None
      when some segment does not name a map there. */
  function Descend(segments: seq<string>, m: seq<(Key, Node)>, ext: Ext): Option<seq<(Key, Node)>>
    decreases |segments|
  {
    if segments == [] then Some(m)
    else if IsMapAt(m, segments[0], ext) then Descend(segments[1..], MapAt(m, segments[0], ext), ext)
    else None
  }

  /** Descending through a segment and then the rest, to the end or to
      the last segment but one. */
  lemma DescendCons(key: string, segments: seq<string>, m: seq<(Key, Node)>, ext: Ext)
    requires segments != []
    ensures var all := [key] + segments;
      var parent := if IsMapAt(m, key, ext) then Descend(segments[..|segments| - 1], MapAt(m, key, ext), ext) else None;
      Descend(all, m, ext) == (if IsMapAt(m, key, ext) then Descend(segments, MapAt(m, key, ext), ext) else None) &&
      Descend(all[..|all| - 1], m, ext) == parent
  {
    var all := [key] + segments;
    assert all[1..] == segments;
    assert all[..|all| - 1] == [key] + segments[..|segments| - 1];
    assert all[..|all| - 1][1..] == segments[..|segments| - 1];
  }

  /** `getSection(full, root)`: the map that holds the section the dotted
      path `full` names (the parent of that section, not the section
      itself), or the IllegalArgumentException the updater raises when a
      segment is missing or is not a map. */
  function GetSection(full: string, root: seq<(Key, Node)>, ext: Ext): (r: Result<seq<(Key, Node)>>)
    decreases |full|
    ensures r.Ok? ==> IsMapAt(r.value, LastSegment(full), ext)
    ensures r.Err? ==> r.failure.IllegalArgument?
    ensures '.' !in full ==> (r.Ok? <==> IsMapAt(root, full, ext)) && (r.Ok? ==> r.value == root)
    ensures !IsMapAt(root, SplitFirst(full, ".").0, ext) ==> r.Err?
    ensures var segments := Pieces(full, ".");
      (r.Ok? <==> Descend(segments, root, ext).Some?) &&
      (r.Ok? ==> Some(r.value) == Descend(segments[..|segments| - 1], root, ext))
  {
    var (key, rest) := SplitFirst(full, ".");
    var i := KeyIndex(root, KeyAsObject(key, root, ext));
    var isMap := i >= 0 && root[i].1.Mapping?;
    PiecesSplitFirst(full, ".");
    if rest == [] then
      if isMap then Ok(root)
      else Err(IllegalArgument("Ignored sections must be a ConfigurationSection not a value!"))
    else
      DescendCons(key, Pieces(rest[0], "."), root, ext);
      if !isMap then Err(IllegalArgument("Invalid ignored ConfigurationSection specified!"))
      else GetSection(rest[0], root[i].1.entries, ext)
  }

  /** `o.toString()` of a key object; the null key throws. */
  function KeyText(k: Key): (r: Result<string>)
    ensures r.Err? <==> k == NullKey
    ensures k.Text? ==> r == Ok(k.s)
  {
    match k
    case NullKey => Err(NullPointer)
    case Text(s) => Ok(s)
    case F32(repr) => Ok(repr)
    case F64(repr) => Ok(repr)
    case I32(n) => Ok(IntText(n))
    case I64(n) => Ok(IntText(n))
    case OtherKey(repr) => Ok(repr)
  }

  /** A plain decimal segment finds an Integer key that no text key
      shadows, provided the float parsers find no key of their own first. */
  lemma NumericSegment(context: seq<(Key, Node)>, ext: Ext)
    requires HasKey(context, I32(10)) && !HasKey(context, Text("10"))
    requires ext.parseFloat("10").None? || !HasKey(context, F32(ext.parseFloat("10").value))
    requires ext.parseDouble("10").None? || !HasKey(context, F64(ext.parseDouble("10").value))
    ensures KeyAsObject("10", context, ext) == I32(10)
  {
    assert DigitValue("10") == 10 by {
      assert "10"[..1] == "1";
      assert DigitValue("1") == 1 by { assert "1"[..0] == ""; }
    }
    assert ParseDecimal("10") == Some(10);
  }
}
