/** Ignored sections: `getIndents`, `addIndent`, `IgnoreBuilder` and
    `parseIgnored`. An ignored section of the user's file is copied into
    the merged file as it stands, rebuilt from the raw SnakeYAML tree of
    that file rather than from the Bukkit view of it. */
module IgnoredSections {
  import opened Results
  import opened JavaText
  import opened RawYaml

  /** `getIndents`: two spaces for every segment of the path after the
      first (counting the segments `split("[.]")` keeps). */
  function Indents(key: string): string
  {
    var n := |Split(key, ".")|;
    Repeat("  ", if n > 0 then n - 1 else 0)
  }

  /** `getIndents` with its loop. */
  method GetIndents(key: string) returns (r: string)
    ensures r == Indents(key)
  {
    var splitKey := Split(key, ".");
    r := "";
    var i := 1;
    while i < |splitKey|
      invariant 1 <= i <= if |splitKey| > 0 then |splitKey| else 1
      invariant r == Repeat("  ", i - 1)
    {
      r := r + "  ";
      i := i + 1;
    }
  }

  /** Each part with `indents` in front. */
  function Prefixed(indents: string, parts: seq<string>): (r: seq<string>)
    ensures |r| == |parts| && forall i :: 0 <= i < |r| ==> r[i] == indents + parts[i]
  {
    if parts == [] then [] else [indents + parts[0]] + Prefixed(indents, parts[1..])
  }

  /** `addIndent`: every line `split("\n")` keeps, behind `indents`, joined
      by line feeds (with no separator while nothing has been written). */
  function AddIndent(s: string, indents: string): string
  {
    Glue(Prefixed(indents, Split(s, "\n")), "\n")
  }

  /** `addIndent` with its loop. */
  method AddIndentLoop(s: string, indents: string) returns (r: string)
    ensures r == AddIndent(s, indents)
  {
    var split := Split(s, "\n");
    r := IndentLines(split, indents);
  }

  /** The loop of `addIndent` over the lines `split` kept. */
  method IndentLines(split: seq<string>, indents: string) returns (r: string)
    ensures r == Glue(Prefixed(indents, split), "\n")
  {
    ghost var parts := Prefixed(indents, split);
    r := "";
    var i := 0;
    while i < |split|
      invariant 0 <= i <= |split|
      invariant r == Glue(parts[..i], "\n")
    {
      assert parts[..i + 1] == parts[..i] + [indents + split[i]];
      GlueSnoc(parts[..i], indents + split[i], "\n");
      if |r| > 0 {
        r := r + "\n";
      }
      r := r + indents + split[i];
      i := i + 1;
    }
    assert parts[..|split|] == parts;
  }

  /** A sequence that holds no path of its own: its kind decides the layout. */
  predicate IsCollection(n: Node) {
    n.Many?
  }

  /** `writeIgnoredValue`: a collection goes on the following lines, re-
      indented; anything else follows the colon after a space. */
  function ValueText(o: Node, indents: string, ext: Ext): string
  {
    var yml := ext.dump(o);
    if IsCollection(o) then "\n" + AddIndent(yml, indents) + "\n" else " " + yml
  }

  /** The comment that goes before the ignored key at `path`, if any. */
  function CommentPart(path: string, comments: map<string, string>): string
  {
    if path in comments then AddIndent(comments[path], Indents(path)) + "\n" else ""
  }

  /** `this.builder` once `build` has appended the key to the prefix. */
  function Qualified(prefix: string, key: string): (r: string)
    ensures prefix == "" ==> r == key
  {
    if |prefix| > 0 then prefix + "." + key else key
  }

  /** The failure `build` raises where the first segment is not held. */
  function Missing(path: string, rest: seq<string>): Failure
  {
    var message := "Invalid ignored section: " + path;
    IllegalArgument(if rest != [] then message + "." + rest[0] else message)
  }

  /** The comment and the key line of the block at `path`, up to the colon. */
  function Head(path: string, key: string, comments: map<string, string>): string
  {
    CommentPart(path, comments) + AddIndent(key, Indents(path)) + ":"
  }

  /** What follows the colon of the block at `path` holding `n`: the nested
      blocks of a map, each child under `path`, or the value itself. */
  function Under(n: Node, path: string, comments: map<string, string>, ext: Ext): Result<string>
    decreases NodeSize(n), 0
  {
    match n
    case Mapping(es) =>
      var body :- Children(es, 0, path, comments, ext);
      Ok((if es == [] then " {}\n" else "\n") + body)
    case _ => Ok(ValueText(n, Indents(path), ext))
  }

  /** What `new IgnoreBuilder(full, m, prefix, ...).build()` appends: the
      block for the first segment of `full` held in `m`, whose path is
      `prefix` extended by that segment. */
  function Block(full: string, m: seq<(Key, Node)>, prefix: string, comments: map<string, string>, ext: Ext): Result<string>
    decreases EntriesSize(m), 1
  {
    var (key, rest) := SplitFirst(full, ".");
    var path := Qualified(prefix, key);
    var i := KeyIndex(m, KeyAsObject(key, m, ext));
    if i < 0 then Err(Missing(path, rest))
    else
      NodeWithin(m, i);
      var body :- Under(m[i].1, path, comments, ext);
      Ok(Head(path, key, comments) + body)
  }

  /** The block of the entry of `es` at index `i`, under `prefix`: its key
      read back as text, then looked up again among `es`. */
  function Child(es: seq<(Key, Node)>, i: nat, prefix: string, comments: map<string, string>, ext: Ext): Result<string>
    requires i < |es|
    decreases EntriesSize(es), 2
  {
    var name :- KeyText(es[i].0);
    Block(name, es, prefix, comments, ext)
  }

  /** The blocks of the entries of `es` from index `i` on, in order, each
      under the same prefix. */
  function Children(es: seq<(Key, Node)>, i: nat, prefix: string, comments: map<string, string>, ext: Ext): Result<string>
    requires i <= |es|
    decreases EntriesSize(es), |es| - i + 3
  {
    if i == |es| then Ok("")
    else
      var first :- Child(es, i, prefix, comments, ext);
      var more :- Children(es, i + 1, prefix, comments, ext);
      Ok(first + more)
  }

  /** The shared output of one `parseIgnored` entry. */
  class TextBuffer {
    var text: string

    constructor ()
      ensures text == ""
    {
      text := "";
    }

    method Append(s: string)
      modifies this
      ensures text == old(text) + s
    {
      text := text + s;
    }
  }

  /** `IgnoreBuilder`: the rest of a path to copy, the raw map that holds
      its first segment, the path so far, and the shared output. */
  class IgnoreBuilder {
    const full: string
    const entries: seq<(Key, Node)>
    var builder: string
    const ignored: TextBuffer
    const comments: map<string, string>
    const ext: Ext

    constructor (full: string, entries: seq<(Key, Node)>, builder: string, ignored: TextBuffer,
                 comments: map<string, string>, ext: Ext)
      ensures this.full == full && this.entries == entries && this.builder == builder
      ensures this.ignored == ignored && this.comments == comments && this.ext == ext
    {
      this.full := full;
      this.entries := entries;
      this.builder := builder;
      this.ignored := ignored;
      this.comments := comments;
      this.ext := ext;
    }

    /** `build`: appends the block to the shared output and returns the
        output so far; fails as `Block` does. */
    method Build() returns (r: Result<string>)
      modifies this, ignored
      decreases EntriesSize(entries), 1
      ensures var spec := Block(full, entries, old(builder), comments, ext);
        (spec.Ok? ==> ignored.text == old(ignored.text) + spec.value && r == Ok(ignored.text))
        && (spec.Err? ==> r == Err(spec.failure))
    {
      var (key, rest) := SplitFirst(full, ".");
      var originalKey := KeyAsObject(key, entries, ext);
      if |builder| > 0 {
        builder := builder + ".";
      }
      builder := builder + key;
      assert builder == Qualified(old(builder), key);
      var i := KeyIndex(entries, originalKey);
      if i < 0 {
        var temp := "Invalid ignored section: " + builder;
        if |rest| != 0 {
          temp := temp + "." + rest[0];
        }
        return Err(IllegalArgument(temp));
      }
      ghost var start := ignored.text;
      var indents := GetIndents(builder);
      WriteHead(key, indents);
      NodeWithin(entries, i);
      var written := WriteUnder(entries[i].1, indents);
      if written.Err? {
        return Err(written.failure);
      }
      Regroup(start, Head(builder, key, comments), written.value);
      return Ok(ignored.text);
    }

    /** The comment and the key line `build` writes. */
    method WriteHead(key: string, indents: string)
      requires indents == Indents(builder)
      modifies ignored
      ensures ignored.text == old(ignored.text) + Head(builder, key, comments)
    {
      ghost var start := ignored.text;
      if builder in comments {
        var c := AddIndentLoop(comments[builder], indents);
        ignored.Append(c + "\n");
      }
      assert ignored.text == start + CommentPart(builder, comments);
      ghost var commented := ignored.text;
      var k := AddIndentLoop(key, indents);
      ignored.Append(k + ":");
      Regroup(start, CommentPart(builder, comments), k + ":");
      Regroup(CommentPart(builder, comments), k, ":");
    }

    /** What `build` writes after the colon; leaves the path as it found it.
        The value it returns, on success, is the text written. */
    method WriteUnder(obj: Node, indents: string) returns (r: Result<string>)
      requires indents == Indents(builder)
      modifies this, ignored
      decreases NodeSize(obj), 0
      ensures builder == old(builder)
      ensures var spec := Under(obj, old(builder), comments, ext);
        (spec.Ok? ==> r == spec && ignored.text == old(ignored.text) + spec.value)
        && (spec.Err? ==> r == Err(spec.failure))
    {
      if obj.Mapping? {
        var m := obj.entries;
        var opener := if |m| == 0 then " {}\n" else "\n";
        ghost var start := ignored.text;
        ignored.Append(opener);
        var written := BuildChildren(m);
        if written.Err? {
          return Err(written.failure);
        }
        Regroup(start, opener, written.value);
        return Ok(opener + written.value);
      } else {
        WriteIgnoredValue(obj, indents);
        return Ok(ValueText(obj, indents, ext));
      }
    }

    /** The loop of `build` over the keys of a nested map `m`, each child
        built from the path as it stood before the loop. */
    method BuildChildren(m: seq<(Key, Node)>) returns (r: Result<string>)
      modifies this, ignored
      decreases EntriesSize(m), 3
      ensures builder == old(builder)
      ensures var spec := Children(m, 0, old(builder), comments, ext);
        (spec.Ok? ==> r == spec && ignored.text == old(ignored.text) + spec.value)
        && (spec.Err? ==> r == Err(spec.failure))
    {
      var start := ignored.text;
      ghost var done := "";
      var j := 0;
      while j < |m|
        invariant 0 <= j <= |m|
        invariant builder == old(builder)
        invariant ignored.text == start + done
        invariant Children(m, 0, builder, comments, ext) == Later(done, Children(m, j, builder, comments, ext))
      {
        var built := BuildChild(m, j);
        ChildrenStep(m, j, builder, comments, ext, done);
        if built.Err? {
          return Err(built.failure);
        }
        Regroup(start, done, built.value);
        done := done + built.value;
        j := j + 1;
      }
      assert done + "" == done;
      assert ignored.text[|start|..] == done;
      return Ok(ignored.text[|start|..]);
    }

    /** One turn of that loop: a builder for the child at index `j`, sharing
        the output, then the path restored. On success the value returned
        is the text the turn wrote. */
    method BuildChild(m: seq<(Key, Node)>, j: nat) returns (r: Result<string>)
      requires j < |m|
      modifies this, ignored
      decreases EntriesSize(m), 2
      ensures builder == old(builder)
      ensures var spec := Child(m, j, old(builder), comments, ext);
        (spec.Ok? ==> r == spec && ignored.text == old(ignored.text) + spec.value)
        && (spec.Err? ==> r == Err(spec.failure))
    {
      var preLoopKey := builder;
      var name := KeyText(m[j].0);
      if name.Err? {
        return Err(name.failure);
      }
      var before := ignored.text;
      var child := new IgnoreBuilder(name.value, m, builder, ignored, comments, ext);
      var built := child.Build();
      if built.Err? {
        return Err(built.failure);
      }
      builder := preLoopKey;
      return Ok(ignored.text[|before|..]);
    }

    /** `writeIgnoredValue`. */
    method WriteIgnoredValue(o: Node, indents: string)
      modifies ignored
      ensures ignored.text == old(ignored.text) + ValueText(o, indents, ext)
    {
      var yml := ext.dump(o);
      if IsCollection(o) {
        var body := AddIndentLoop(yml, indents);
        ignored.Append("\n" + body + "\n");
        return;
      }
      ignored.Append(" " + yml);
    }
  }

  /** `done` in front of the text `r` holds, or `r`'s failure. */
  function Later(done: string, r: Result<string>): (l: Result<string>)
    ensures done == "" ==> l == r
  {
    match r
    case Ok(s) =>
      assert done == "" ==> done + s == s;
      Ok(done + s)
    case Err(f) => Err(f)
  }

  lemma LaterLater(a: string, b: string, r: Result<string>)
    ensures Later(a, Later(b, r)) == Later(a + b, r)
  {
    if r.Ok? {
      assert a + (b + r.value) == (a + b) + r.value;
    }
  }

  /** One child more: the blocks from `j` on are the block at `j` followed
      by those after it, or the failure of the block at `j`. */
  lemma ChildrenStep(m: seq<(Key, Node)>, j: nat, prefix: string, comments: map<string, string>, ext: Ext, done: string)
    requires j < |m|
    ensures var c := Child(m, j, prefix, comments, ext);
      (c.Ok? ==> Later(done, Children(m, j, prefix, comments, ext))
                 == Later(done + c.value, Children(m, j + 1, prefix, comments, ext)))
      && (c.Err? ==> Later(done, Children(m, j, prefix, comments, ext)) == Err(c.failure))
  {
    var c := Child(m, j, prefix, comments, ext);
    if c.Ok? {
      LaterLater(done, c.value, Children(m, j + 1, prefix, comments, ext));
    }
  }

  /** The value `parseIgnored` stores for one section name, given the raw
      map of the user's file (None where the file loaded as null): the
      block for the last segment, built from the map `getSection` finds
      under the path of the segments before it. */
  function Entry(section: string, root: Option<seq<(Key, Node)>>, comments: map<string, string>, ext: Ext): Result<string>
  {
    var split := Split(section, ".");
    if split == [] then Err(IndexOutOfBounds)
    else if root.None? then Err(NullPointer)
    else
      var m :- GetSection(section, root.value, ext);
      Block(split[|split| - 1], m, Glue(split[..|split| - 1], "."), comments, ext)
  }

  /** `Entry` for the sections of one document. */
  function EntryOf(root: Option<seq<(Key, Node)>>, comments: map<string, string>, ext: Ext): string -> Result<string>
  {
    section => Entry(section, root, comments, ext)
  }

  /** The raw map of a loaded document that is null or a map. */
  function RootEntries(root: Option<Node>): Option<seq<(Key, Node)>>
  {
    match root
    case Some(Mapping(es)) => Some(es)
    case _ => None
  }

  /** The entries `parseIgnored` adds to `values` from index `i` on, each
      section's value given by `entry`, or the failure of the first section
      that throws. */
  function CollectFrom(sections: seq<string>, i: nat, values: map<string, string>, entry: string -> Result<string>)
    : Result<map<string, string>>
    requires i <= |sections|
    decreases |sections| - i
  {
    if i == |sections| then Ok(values)
    else
      var v :- entry(sections[i]);
      CollectFrom(sections, i + 1, values[sections[i] := v], entry)
  }

  /** `parseIgnored(sections)` on the loaded raw document `root`: a document
      that is not a map fails the cast before any section is read. */
  function Ignored(sections: seq<string>, root: Option<Node>, comments: map<string, string>, ext: Ext): Result<map<string, string>>
  {
    if root.Some? && !root.value.Mapping? then Err(ClassCast)
    else CollectFrom(sections, 0, map[], EntryOf(RootEntries(root), comments, ext))
  }

  /** `parseIgnored`. */
  method ParseIgnored(sections: seq<string>, root: Option<Node>, comments: map<string, string>, ext: Ext)
    returns (r: Result<map<string, string>>)
    ensures r == Ignored(sections, root, comments, ext)
  {
    if root.Some? && !root.value.Mapping? {
      return Err(ClassCast);
    }
    r := ForEachSection(sections, RootEntries(root), comments, ext);
  }

  /** The `forEach` of `parseIgnored` over the sections, in order. */
  method ForEachSection(sections: seq<string>, root: Option<seq<(Key, Node)>>, comments: map<string, string>, ext: Ext)
    returns (r: Result<map<string, string>>)
    ensures r == CollectFrom(sections, 0, map[], EntryOf(root, comments, ext))
  {
    var values: map<string, string> := map[];
    var i := 0;
    while i < |sections|
      invariant 0 <= i <= |sections|
      invariant CollectFrom(sections, 0, map[], EntryOf(root, comments, ext))
        == CollectFrom(sections, i, values, EntryOf(root, comments, ext))
    {
      var built := IgnoreSection(sections[i], root, comments, ext);
      if built.Err? {
        return Err(built.failure);
      }
      values := values[sections[i] := built.value];
      i := i + 1;
    }
    return Ok(values);
  }

  /** The body of the `forEach` of `parseIgnored`, for one section. */
  method IgnoreSection(section: string, root: Option<seq<(Key, Node)>>, comments: map<string, string>, ext: Ext)
    returns (r: Result<string>)
    ensures r == EntryOf(root, comments, ext)(section)
  {
    var split := Split(section, ".");
    if |split| == 0 {
      return Err(IndexOutOfBounds);
    }
    var key := split[|split| - 1];
    if root.None? {
      return Err(NullPointer);
    }
    var m := GetSection(section, root.value, ext);
    if m.Err? {
      return Err(m.failure);
    }
    var b := ParentPath(split);
    ghost var spec := Block(key, m.value, b, comments, ext);
    assert Entry(section, root, comments, ext) == spec;
    var ignored := new TextBuffer();
    var builder := new IgnoreBuilder(key, m.value, b, ignored, comments, ext);
    r := builder.Build();
    if spec.Ok? {
      assert ignored.text == "" + spec.value == spec.value;
    }
    assert r == spec;
  }

  /** The loop of `parseIgnored` that joins every segment but the last. */
  method ParentPath(split: seq<string>) returns (b: string)
    requires split != []
    ensures b == Glue(split[..|split| - 1], ".")
  {
    b := "";
    var i := 0;
    while i < |split|
      invariant 0 <= i <= |split|
      invariant b == Glue(split[..if i < |split| then i else |split| - 1], ".")
    {
      if i == |split| - 1 {
        i := i + 1;
        continue;
      }
      assert split[..i + 1][..i] == split[..i];
      if |b| > 0 {
        b := b + ".";
      }
      b := b + split[i];
      i := i + 1;
    }
  }

  /** Every section named is stored, under its own name, with the value
      built for it; nothing else is. */
  lemma {:induction false} CollectFromOk(sections: seq<string>, i: nat, values: map<string, string>,
                                         entry: string -> Result<string>)
    requires i <= |sections|
    requires CollectFrom(sections, i, values, entry).Ok?
    ensures var r := CollectFrom(sections, i, values, entry).value;
      (forall j :: i <= j < |sections| ==> entry(sections[j]).Ok?)
      && r.Keys == values.Keys + (set j | i <= j < |sections| :: sections[j])
      && (forall j :: i <= j < |sections| ==> r[sections[j]] == entry(sections[j]).value)
      && (forall k :: k in values && k !in sections[i..] ==> r[k] == values[k])
    decreases |sections| - i
  {
    if i < |sections| {
      var v := entry(sections[i]).value;
      CollectFromOk(sections, i + 1, values[sections[i] := v], entry);
      var r := CollectFrom(sections, i, values, entry).value;
      assert (set j | i <= j < |sections| :: sections[j])
        == {sections[i]} + (set j | i + 1 <= j < |sections| :: sections[j]);
      forall j | i <= j < |sections|
        ensures r[sections[j]] == entry(sections[j]).value
      {
        if j == i && sections[i] !in sections[i + 1..] {
          assert r[sections[i]] == v;
        } else if j == i {
          var k :| i + 1 <= k < |sections| && sections[k] == sections[i];
          assert r[sections[k]] == entry(sections[k]).value;
        }
      }
      forall k | k in values && k !in sections[i..]
        ensures r[k] == values[k]
      {
        assert sections[i] in sections[i..];
        assert forall x :: x in sections[i + 1..] ==> x in sections[i..];
      }
    }
  }

  /** The collection fails where some section fails, with the failure of
      the first such section. */
  lemma {:induction false} CollectFromErr(sections: seq<string>, i: nat, values: map<string, string>,
                                          entry: string -> Result<string>)
    requires i <= |sections|
    requires exists j :: i <= j < |sections| && entry(sections[j]).Err?
    ensures exists j ::
              && i <= j < |sections| && entry(sections[j]).Err?
              && (forall k :: i <= k < j ==> entry(sections[k]).Ok?)
              && CollectFrom(sections, i, values, entry) == Err(entry(sections[j]).failure)
    decreases |sections| - i
  {
    var e := entry(sections[i]);
    if e.Ok? {
      var j0 :| i <= j0 < |sections| && entry(sections[j0]).Err?;
      assert j0 != i;
      CollectFromErr(sections, i + 1, values[sections[i] := e.value], entry);
      var j :| && i + 1 <= j < |sections| && entry(sections[j]).Err?
               && (forall k :: i + 1 <= k < j ==> entry(sections[k]).Ok?)
               && CollectFrom(sections, i + 1, values[sections[i] := e.value], entry) == Err(entry(sections[j]).failure);
      assert CollectFrom(sections, i, values, entry) == CollectFrom(sections, i + 1, values[sections[i] := e.value], entry);
      assert forall k :: i <= k < j ==> entry(sections[k]).Ok?;
    } else {
      assert CollectFrom(sections, i, values, entry) == Err(e.failure);
    }
  }

  /** ... and succeeds where every section does. */
  lemma {:induction false} CollectFromAllOk(sections: seq<string>, i: nat, values: map<string, string>,
                                            entry: string -> Result<string>)
    requires i <= |sections|
    requires forall j :: i <= j < |sections| ==> entry(sections[j]).Ok?
    ensures CollectFrom(sections, i, values, entry).Ok?
    decreases |sections| - i
  {
    if i < |sections| {
      CollectFromAllOk(sections, i + 1, values[sections[i] := entry(sections[i]).value], entry);
    }
  }

  /** The map `parseIgnored` returns holds exactly the sections named, each
      with its own block; it fails exactly where the document is not a map
      or some section fails, and then with the first section's failure. */
  lemma IgnoredSpec(sections: seq<string>, root: Option<Node>, comments: map<string, string>, ext: Ext)
    ensures var r := Ignored(sections, root, comments, ext);
      var entry := EntryOf(RootEntries(root), comments, ext);
      (r.Ok? <==> (root.None? || root.value.Mapping?) && forall j :: 0 <= j < |sections| ==> entry(sections[j]).Ok?)
      && (r.Ok? ==> r.value.Keys == (set j | 0 <= j < |sections| :: sections[j])
                    && forall j :: 0 <= j < |sections| ==> r.value[sections[j]] == entry(sections[j]).value)
      && (root.Some? && !root.value.Mapping? ==> r == Err(ClassCast))
      && ((root.None? || root.value.Mapping?) && r.Err? ==>
            exists j ::
              && 0 <= j < |sections| && entry(sections[j]).Err?
              && (forall k :: 0 <= k < j ==> entry(sections[k]).Ok?)
              && r == Err(entry(sections[j]).failure))
  {
    var r := Ignored(sections, root, comments, ext);
    var entry := EntryOf(RootEntries(root), comments, ext);
    if root.None? || root.value.Mapping? {
      if r.Ok? {
        CollectFromOk(sections, 0, map[], entry);
      } else if exists j :: 0 <= j < |sections| && entry(sections[j]).Err? {
        CollectFromErr(sections, 0, map[], entry);
      } else {
        CollectFromAllOk(sections, 0, map[], entry);
      }
    }
  }

  /** A path of `n` dot-free segments, the last one non-empty, is indented
      by two spaces for each level below the first. */
  lemma IndentsOfPath(segments: seq<string>)
    requires segments != [] && segments[|segments| - 1] != []
    requires forall i :: 0 <= i < |segments| ==> '.' !in segments[i]
    ensures Indents(Join(segments, ".")) == Repeat("  ", |segments| - 1)
  {
    assert "." == ['.'];
    SplitJoin(segments, '.');
    var n := |Split(Join(segments, "."), ".")|;
    assert n == |segments|;
  }

  /** A single line is indented as a whole. */
  lemma AddIndentOneLine(s: string, indents: string)
    requires '\n' !in s
    ensures AddIndent(s, indents) == indents + s
  {
    SplitNoSeparator(s, '\n');
    assert Prefixed(indents, [s]) == [indents + s];
    GlueOne(indents + s, "\n");
  }

  /** Under a non-empty indent, every line gets the indent and the lines
      stay apart, blank ones included. */
  lemma AddIndentLines(lines: seq<string>, indents: string)
    requires indents != []
    requires lines != [] && lines[|lines| - 1] != []
    requires forall i :: 0 <= i < |lines| ==> '\n' !in lines[i]
    ensures AddIndent(Join(lines, "\n"), indents) == Join(Prefixed(indents, lines), "\n")
  {
    SplitJoin(lines, '\n');
    GlueNonEmptyIsJoin(Prefixed(indents, lines), "\n");
  }

  /** The line feed that ends a dump is dropped by `addIndent` (the caller
      writes its own). */
  lemma AddIndentDropsFinalLineFeed(s: string, indents: string)
    requires s != []
    ensures AddIndent(s + "\n", indents) == AddIndent(s, indents)
  {
    SplitDropsTrailingSeparator(s, '\n');
  }

  /** Under no indent, a blank first line is lost: `addIndent` writes a line
      feed only once something has been written. */
  lemma AddIndentLosesLeadingBlank()
    ensures AddIndent("\nb", "") == "b"
  {
    var s := "\nb";
    assert OccursAt(s, "\n", 0);
    assert s[1..] == "b";
    PiecesNoSeparator("b", '\n');
    assert Pieces(s, "\n") == ["", "b"];
    assert Split(s, "\n") == ["", "b"];
    assert "" + "" == "" && "" + "b" == "b";
    assert Prefixed("", ["", "b"]) == ["", "b"];
    assert ["", "b"][..1] == [""];
    assert [""][..0] == [];
    assert Glue([""], "\n") == "";
  }

  predicate EndsLine(s: string) {
    s != [] && s[|s| - 1] == '\n'
  }

  /** Every block ends with a line feed, so consecutive blocks never run
      together, provided each dump does (block style always ends a
      document with one). */
  lemma {:induction false} BlockEndsLine(full: string, m: seq<(Key, Node)>, prefix: string, comments: map<string, string>, ext: Ext)
    requires forall n :: EndsLine(ext.dump(n))
    ensures Block(full, m, prefix, comments, ext).Ok? ==> EndsLine(Block(full, m, prefix, comments, ext).value)
    decreases EntriesSize(m), 1
  {
    var (key, rest) := SplitFirst(full, ".");
    var path := Qualified(prefix, key);
    var i := KeyIndex(m, KeyAsObject(key, m, ext));
    if i >= 0 {
      NodeWithin(m, i);
      UnderEndsLine(m[i].1, path, comments, ext);
    }
  }

  lemma {:induction false} UnderEndsLine(n: Node, path: string, comments: map<string, string>, ext: Ext)
    requires forall n :: EndsLine(ext.dump(n))
    ensures Under(n, path, comments, ext).Ok? ==> EndsLine(Under(n, path, comments, ext).value)
    decreases NodeSize(n), 0
  {
    match n
    case Mapping(es) =>
      ChildrenEndLine(es, 0, path, comments, ext);
    case _ =>
      assert EndsLine(ext.dump(n));
  }

  lemma {:induction false} ChildrenEndLine(es: seq<(Key, Node)>, i: nat, prefix: string, comments: map<string, string>, ext: Ext)
    requires i <= |es|
    requires forall n :: EndsLine(ext.dump(n))
    ensures var r := Children(es, i, prefix, comments, ext);
      r.Ok? ==> r.value == [] || EndsLine(r.value)
    decreases EntriesSize(es), |es| - i + 3
  {
    if i < |es| {
      var first := Child(es, i, prefix, comments, ext);
      var more := Children(es, i + 1, prefix, comments, ext);
      if first.Ok? && more.Ok? {
        ChildEndsLine(es, i, prefix, comments, ext);
        ChildrenEndLine(es, i + 1, prefix, comments, ext);
        assert Children(es, i, prefix, comments, ext) == Ok(first.value + more.value);
        EndsLineAppend(first.value, more.value);
      }
    }
  }

  lemma {:induction false} ChildEndsLine(es: seq<(Key, Node)>, i: nat, prefix: string, comments: map<string, string>, ext: Ext)
    requires i < |es|
    requires forall n :: EndsLine(ext.dump(n))
    ensures Child(es, i, prefix, comments, ext).Ok? ==> EndsLine(Child(es, i, prefix, comments, ext).value)
    decreases EntriesSize(es), 2
  {
    var name := KeyText(es[i].0);
    if name.Ok? {
      BlockEndsLine(name.value, es, prefix, comments, ext);
    }
  }

  /** A text that ends a line still does after nothing, and anything ends
      a line once followed by a text that does. */
  lemma EndsLineAppend(a: string, b: string)
    requires EndsLine(a)
    requires b == [] || EndsLine(b)
    ensures EndsLine(a + b)
  {
    if b == [] {
      assert a + b == a;
    } else {
      assert (a + b)[|a + b| - 1] == b[|b| - 1];
    }
  }

  /** A top-level ignored section is copied from the root map under the
      empty prefix, so its path is its own name. */
  lemma TopLevelEntry(section: string, root: seq<(Key, Node)>, comments: map<string, string>, ext: Ext)
    requires section != [] && '.' !in section
    requires IsMapAt(root, section, ext)
    ensures Entry(section, Some(root), comments, ext) == Block(section, root, "", comments, ext)
  {
    SplitNoSeparator(section, '.');
  }

  /** A scalar under a plain key is written as the key line followed by the
      dump of the value, indented for the depth of its path, after the
      comment recorded for that path. */
  lemma ScalarBlock(key: string, m: seq<(Key, Node)>, prefix: string, comments: map<string, string>, ext: Ext)
    requires '.' !in key && '\n' !in key
    requires HasKey(m, Text(key))
    requires !m[KeyIndex(m, Text(key))].1.Mapping? && !m[KeyIndex(m, Text(key))].1.Many?
    ensures var path := Qualified(prefix, key);
      Block(key, m, prefix, comments, ext)
      == Ok(CommentPart(path, comments) + Indents(path) + key + ": " + ext.dump(m[KeyIndex(m, Text(key))].1))
  {
    var path := Qualified(prefix, key);
    SplitFirstAbsent(key, '.');
    AddIndentOneLine(key, Indents(path));
    var n := m[KeyIndex(m, Text(key))].1;
    var c, d, ind := CommentPart(path, comments), ext.dump(n), Indents(path);
    assert Under(n, path, comments, ext) == Ok(" " + d);
    assert Head(path, key, comments) == c + (ind + key) + ":";
    Regroup(c, ind, key);
    var x := c + ind + key;
    Regroup(x + ":", " ", d);
    Regroup(x, ":", " ");
    assert ":" + " " == ": ";
  }
}
