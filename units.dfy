/** `ConfigurableUnit` and `UnitMappable`: a unit is a configuration section
    read through a few fixed keys (`permission`, `priority`, `group`), and a
    unit map is a `Mappable` of units that can pick the first unit a player
    may use. Permission checks and group membership belong to the server and
    are parameters here. */
module Units {
  import opened Results
  import opened JavaText
  import opened Sections
  import opened Mappables

  /** A command sender (a player or the console). */
  type Sender

  /** `StringUtils.isBlank` of a nullable string. */
  predicate BlankOrNull(s: Option<string>) {
    s.None? || IsBlank(s.value)
  }

  /** `getString("permission", "DEFAULT")`. */
  function PermissionOf(s: Section): (r: string)
    ensures !Contains(s, "permission") ==> r == "DEFAULT"
    ensures Contains(s, "permission") ==> r == ToText(Get(s, "permission").value)
  {
    GetString(s, "permission", "DEFAULT")
  }

  /** `perm.matches("(?i)default")`. */
  predicate IsDefaultPermission(perm: string) {
    EqualsIgnoreCase(perm, "default")
  }

  /** `getInt("priority", def)`, where `def` is 0 for the default permission
      and 1 for any other: a number of any class ranks by its `intValue`. */
  function PriorityOf(s: Section): (r: int32)
    ensures NumberAt(s, "priority") ==> Some(r) == IntValue(Get(s, "priority").value)
    ensures !NumberAt(s, "priority") ==>
      r == if IsDefaultPermission(PermissionOf(s)) then 0 else 1
  {
    GetInt(s, "priority", if IsDefaultPermission(PermissionOf(s)) then 0 else 1)
  }

  /** Without a number under `priority`, a unit ranks 0 exactly when its
      permission is the default one, and 1 otherwise. */
  lemma ImplicitPriority(s: Section)
    requires !NumberAt(s, "priority")
    ensures PriorityOf(s) == 0 || PriorityOf(s) == 1
    ensures PriorityOf(s) == 0 <==> IsDefaultPermission(PermissionOf(s))
  {
  }

  /** A `Long` (or `BigInteger`) priority ranks by its low 32 bits, an
      `Integer` one by itself, whatever the permission. */
  lemma IntegralPriority(s: Section)
    requires Get(s, "priority").Some?
    ensures Get(s, "priority").value.Int? ==> PriorityOf(s) == Get(s, "priority").value.n
    ensures Get(s, "priority").value.Long? ==> PriorityOf(s) == Wrap32(Get(s, "priority").value.l)
    ensures Get(s, "priority").value.Real? ==> PriorityOf(s) == Get(s, "priority").value.whole
  {
  }

  /** `priority: 3000000000` loads as a Long and ranks -1294967296. */
  lemma WidePriority(s: Section)
    requires Get(s, "priority") == Some(Long(3000000000))
    ensures PriorityOf(s) == -1294967296
  {
    assert 3000000000 % 0x1_0000_0000 == 3000000000;
  }

  /** A section with neither key ranks 0: the permission falls back to
      `"DEFAULT"`, which matches `(?i)default`. */
  lemma BareSectionPriority(s: Section)
    requires !Contains(s, "permission") && !Contains(s, "priority")
    ensures PermissionOf(s) == "DEFAULT"
    ensures PriorityOf(s) == 0
  {
    var d := "DEFAULT";
    assert AsciiLower(d[0]) == 'd' && AsciiLower(d[1]) == 'e' && AsciiLower(d[2]) == 'f';
    assert AsciiLower(d[3]) == 'a' && AsciiLower(d[4]) == 'u' && AsciiLower(d[5]) == 'l';
    assert AsciiLower(d[6]) == 't';
    assert IsDefaultPermission(d);
  }

  /** A `ConfigurableUnit`: its section and its `isInGroup` test. */
  class Unit {
    const section: Section
    const inGroup: Sender -> bool

    constructor (section: Section, inGroup: Sender -> bool)
      ensures this.section == section && this.inGroup == inGroup
    {
      this.section := section;
      this.inGroup := inGroup;
    }

    /** `getPermission`: the `permission` value, `"DEFAULT"` when absent. */
    function Permission(): (r: string)
      ensures !Contains(section, "permission") ==> r == "DEFAULT"
      ensures Contains(section, "permission") ==> r == ToText(Get(section, "permission").value)
    {
      PermissionOf(section)
    }

    /** `getPriority`: the `intValue` of a number under `priority`, else 0
        for the default permission and 1 for any other. */
    function Priority(): (r: int32)
      ensures NumberAt(section, "priority") ==> Some(r) == IntValue(Get(section, "priority").value)
      ensures !NumberAt(section, "priority") ==> (r == 0 || r == 1) && (r == 0 <==> IsDefaultPermission(Permission()))
    {
      PriorityOf(section)
    }

    /** `getGroup`: the `group` value, or null. */
    function Group(): (r: Option<string>)
      ensures r.None? <==> !Contains(section, "group")
      ensures r.Some? ==> r.value == ToText(Get(section, "group").value)
    {
      GetStringOrNull(section, "group")
    }

    /** `hasPermission(sender)`: the sender holds this unit's permission. */
    predicate HasPermission(sender: Sender, permits: (Sender, string) -> bool)
      ensures !Contains(section, "permission") ==> (HasPermission(sender, permits) <==> permits(sender, "DEFAULT"))
      ensures Contains(section, "permission") ==>
        (HasPermission(sender, permits) <==> permits(sender, ToText(Get(section, "permission").value)))
    {
      permits(sender, Permission())
    }

    /** `isInGroupNonNull`: a blank or missing group lets nobody in. */
    predicate InGroupNonNull(sender: Sender)
      ensures BlankOrNull(Group()) ==> !InGroupNonNull(sender)
      ensures !BlankOrNull(Group()) ==> (InGroupNonNull(sender) <==> inGroup(sender))
    {
      !BlankOrNull(Group()) && inGroup(sender)
    }

    /** `isInGroupAsNull`: a blank or missing group lets everybody in. */
    predicate InGroupAsNull(sender: Sender)
      ensures BlankOrNull(Group()) ==> InGroupAsNull(sender)
      ensures !BlankOrNull(Group()) ==> (InGroupAsNull(sender) <==> inGroup(sender))
    {
      BlankOrNull(Group()) || inGroup(sender)
    }
  }

  /** The strict group test implies the lenient one, and the two agree
      whenever a group is set. */
  lemma GroupTests(u: Unit, sender: Sender)
    ensures u.InGroupNonNull(sender) ==> u.InGroupAsNull(sender)
    ensures !BlankOrNull(u.Group()) ==> (u.InGroupNonNull(sender) <==> u.InGroupAsNull(sender))
  {
  }

  /** `ConfigurableUnit.of(section)`: a unit over `section` whose group test
      always passes. */
  method Of(section: Section) returns (u: Unit)
    ensures fresh(u) && u.section == section
    ensures forall sender :: u.inGroup(sender)
  {
    u := new Unit(section, sender => true);
  }

  /** `ConfigurableUnit.of(unit)`: a new unit over the same section. */
  method OfUnit(unit: Unit) returns (u: Unit)
    ensures fresh(u) && u.section == unit.section
    ensures forall sender :: u.inGroup(sender)
  {
    u := Of(unit.section);
  }

  /** For a unit made by `of`, the lenient group test always passes and the
      strict one passes exactly when a group is set. */
  lemma OfGroups(u: Unit, sender: Sender)
    requires forall s :: u.inGroup(s)
    ensures u.InGroupAsNull(sender)
    ensures u.InGroupNonNull(sender) <==> !BlankOrNull(u.Group())
  {
    assert u.inGroup(sender);
  }

  /** The unit test `getUnit` applies for a given player. */
  function PassesFor(player: Sender, permits: (Sender, string) -> bool): Unit -> bool
  {
    (u: Unit) => u.HasPermission(player, permits)
  }

  /** The first unit of `units` passing `pass`, if any. */
  function FirstPassing(units: seq<Unit>, pass: Unit -> bool): (r: Option<Unit>)
    ensures r.None? <==> forall i :: 0 <= i < |units| ==> !pass(units[i])
    ensures r.Some? ==> exists i :: 0 <= i < |units| && units[i] == r.value && pass(units[i])
                                    && forall j :: 0 <= j < i ==> !pass(units[j])
  {
    if units == [] then None
    else if pass(units[0]) then Some(units[0])
    else
      var r := FirstPassing(units[1..], pass);
      assert forall i :: 1 <= i < |units| ==> units[i] == units[1..][i - 1];
      assert r.Some? ==> exists i :: 0 <= i < |units| && units[i] == r.value && pass(units[i])
                                    && forall j :: 0 <= j < i ==> !pass(units[j]) by {
        if r.Some? {
          var i :| 0 <= i < |units[1..]| && units[1..][i] == r.value && pass(units[1..][i])
                   && forall j :: 0 <= j < i ==> !pass(units[1..][j]);
          assert forall j :: 0 <= j < i + 1 ==> !pass(units[j]) by {
            forall j | 0 <= j < i + 1 ensures !pass(units[j]) {
              if j > 0 { assert units[j] == units[1..][j - 1]; }
            }
          }
        }
      }
      r
  }

  /** The first passing unit of a concatenation. */
  lemma {:induction false} FirstPassingAppend(a: seq<Unit>, b: seq<Unit>, pass: Unit -> bool)
    ensures FirstPassing(a + b, pass) == if FirstPassing(a, pass).Some? then FirstPassing(a, pass) else FirstPassing(b, pass)
    decreases |a|
  {
    if a == [] {
      assert a + b == b;
    } else {
      assert (a + b)[0] == a[0] && (a + b)[1..] == a[1..] + b;
      FirstPassingAppend(a[1..], b, pass);
    }
  }

  /** The nested search of `getUnit`: the collections under `ks` in turn,
      each in its own order. */
  function FirstIn(ks: seq<int>, g: map<int, seq<Unit>>, pass: Unit -> bool): Option<Unit>
    requires Covered(ks, g)
  {
    if ks == [] then None
    else match FirstPassing(g[ks[0]], pass)
      case Some(u) => Some(u)
      case None => FirstIn(ks[1..], g, pass)
  }

  /** The nested search finds the first passing unit of all the stored
      collections laid end to end. */
  lemma {:induction false} FirstInFlatten(ks: seq<int>, g: map<int, seq<Unit>>, pass: Unit -> bool)
    requires Covered(ks, g)
    ensures FirstIn(ks, g, pass) == FirstPassing(Flatten(ks, g), pass)
    decreases |ks|
  {
    if ks != [] {
      FirstInFlatten(ks[1..], g, pass);
      FirstPassingAppend(g[ks[0]], Flatten(ks[1..], g), pass);
    }
  }

  /** `getUnit(player)`: no player gives null; otherwise the first unit, in
      `values()` order and then in each collection's order, whose permission
      the player holds, or null when there is none. */
  method GetUnit(m: Mappable<Unit>, player: Option<Sender>, permits: (Sender, string) -> bool) returns (r: Option<Unit>)
    requires m.Valid()
    ensures player.None? ==> r.None?
    ensures player.Some? ==> r == FirstPassing(Flatten(m.keys, m.groups), PassesFor(player.value, permits))
  {
    if player.None? {
      return None;
    }
    ghost var pass := PassesFor(player.value, permits);
    FirstInFlatten(m.keys, m.groups, pass);
    var i := 0;
    while i < |m.keys|
      invariant 0 <= i <= |m.keys|
      invariant FirstIn(m.keys, m.groups, pass) == FirstIn(m.keys[i..], m.groups, pass)
    {
      assert m.keys[i..][1..] == m.keys[i + 1..];
      var collection := m.groups[m.keys[i]];
      var j := 0;
      while j < |collection|
        invariant 0 <= j <= |collection|
        invariant FirstPassing(collection, pass) == FirstPassing(collection[j..], pass)
      {
        assert collection[j..][0] == collection[j] && collection[j..][1..] == collection[j + 1..];
        if collection[j].HasPermission(player.value, permits) {
          return Some(collection[j]);
        }
        j := j + 1;
      }
      i := i + 1;
    }
    return None;
  }

  /** `UnitMappable.asSet()` and `asSet(map)`: a LinkedHashMap-backed unit
      set map holding exactly the given entries (none for a null map). */
  method AsSet(source: Option<JavaMap<Unit>>) returns (r: Mappable<Unit>)
    requires source.Some? ==> WellFormed(SetKind, source.value)
    ensures fresh(r) && r.Valid() && r.kind == SetKind && !r.hashed
    ensures source.None? ==> r.keys == [] && r.groups == map[]
    ensures source.Some? ==> r.keys == source.value.keys && r.groups == source.value.at
  {
    r := new Mappable<Unit>.FromMap(SetKind, false, source);
  }

  /** `UnitMappable.asList()` and `asList(map)`. */
  method AsList(source: Option<JavaMap<Unit>>) returns (r: Mappable<Unit>)
    requires source.Some? ==> WellFormed(ListKind, source.value)
    ensures fresh(r) && r.Valid() && r.kind == ListKind && !r.hashed
    ensures source.None? ==> r.keys == [] && r.groups == map[]
    ensures source.Some? ==> r.keys == source.value.keys && r.groups == source.value.at
  {
    r := new Mappable<Unit>.FromMap(ListKind, false, source);
  }
}
