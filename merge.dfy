/** `YAMLUpdater.update`: the merged file written key by key. Every path of
    the default configuration is written in the default file's order, with
    the comment block recorded for it, its value taken from the user's
    configuration when the user has one and from the default otherwise;
    an ignored section is copied as the user wrote it, and the keys below
    it are not written again. */
module Merge {
  import opened Results
  import opened JavaText
  import opened Sections
  import opened RawYaml
  import opened CommentScan
  import opened IgnoredSections

  /** What an updater holds once built: the default configuration, the
      user's configuration, the comments of the default file, and the
      text of every ignored section by its path. */
  datatype Updater = Updater(
    def: Section,
    current: Section,
    comments: Comments,
    ignored: map<string, string>,
    ext: Ext)

  /** The constructor's work on the two loaded configurations: the comments
      of the default file, then the ignored sections of the user's file (a
      null list is empty). */
  function Load(defText: string, def: Section, current: Section, root: Option<Node>,
                ignored: Option<seq<string>>, ext: Ext): Result<Updater>
  {
    var comments :- CommentsOf(defText, def);
    var blocks :- Ignored(if ignored.Some? then ignored.value else [], root, comments.byPath, ext);
    Ok(Updater(def, current, comments, blocks, ext))
  }

  /** The constructor `YAMLUpdater(loader, resourcePath, file, ignored)`,
      once both files are read. */
  method New(defText: string, def: Section, current: Section, root: Option<Node>,
             ignored: Option<seq<string>>, ext: Ext) returns (r: Result<Updater>)
    ensures r == Load(defText, def, current, root, ignored, ext)
  {
    var comments := ParseComments(defText, def);
    if comments.Err? {
      return Err(comments.failure);
    }
    var sections := if ignored.Some? then ignored.value else [];
    var blocks := ParseIgnored(sections, root, comments.value.byPath, ext);
    if blocks.Err? {
      return Err(blocks.failure);
    }
    return Ok(Updater(def, current, comments.value, blocks.value, ext));
  }

  /** A built updater has well-formed comment blocks and holds a text for
      exactly the ignored sections named. */
  lemma LoadSpec(defText: string, def: Section, current: Section, root: Option<Node>,
                 ignored: Option<seq<string>>, ext: Ext)
    requires Load(defText, def, current, root, ignored, ext).Ok?
    ensures var u := Load(defText, def, current, root, ignored, ext).value;
      var names := if ignored.Some? then ignored.value else [];
      WellFormed(u.comments) && u.ignored.Keys == (set j | 0 <= j < |names| :: names[j])
      && u.def == def && u.current == current
  {
    CommentsWellFormed(defText, def);
    var comments := CommentsOf(defText, def).value;
    IgnoredSpec(if ignored.Some? then ignored.value else [], root, comments.byPath, ext);
  }

  /** `full` lies strictly below the ignored section `key`. */
  predicate Below(full: string, key: string) {
    key != "" && StartsWith(full, key) && StartsWith(full[|key|..], ".")
  }

  /** Some ignored section lies strictly above `full`. */
  predicate UnderIgnored(full: string, ignored: map<string, string>) {
    exists key :: key in ignored && Below(full, key)
  }

  /** The loop of `update` over the ignored sections, asking whether one of
      them lies above `full`. */
  method UnderIgnoredLoop(full: string, ignored: map<string, string>) returns (found: bool)
    ensures found <==> UnderIgnored(full, ignored)
  {
    var remaining := ignored.Keys;
    while remaining != {}
      invariant remaining <= ignored.Keys
      invariant forall key :: key in ignored && key !in remaining ==> !Below(full, key)
      decreases |remaining|
    {
      var key :| key in remaining;
      if Below(full, key) {
        return true;
      }
      remaining := remaining - {key};
    }
    return false;
  }

  /** A comment block written at depth `indents`: its final line feed cut,
      every other one followed by the indent, the indent in front and a
      line feed behind. An empty block throws on the cut. */
  function CommentText(indents: string, comment: string): Result<string>
  {
    if comment == [] then Err(IndexOutOfBounds)
    else Ok(indents + ReplaceChar(comment[..|comment| - 1], '\n', "\n" + indents) + "\n")
  }

  /** The comment written before `full`, if the default file has one. */
  function CommentFor(u: Updater, full: string): Result<string>
  {
    if full in u.comments.byPath then CommentText(Indents(full), u.comments.byPath[full]) else Ok("")
  }

  /** `current.get(full)`, falling back to `def.get(full)`. */
  function ValueAt(u: Updater, full: string): (r: Option<Value>)
    ensures Get(u.current, full).Some? ==> r == Get(u.current, full)
    ensures Get(u.current, full).None? ==> r == Get(u.def, full)
  {
    match Get(u.current, full)
    case Some(v) => Some(v)
    case None => Get(u.def, full)
  }

  /** The line (or lines) for the value at `full`, under its last segment:
      a section opens a block (`{}` when it is empty), any other value is
      saved on its own and re-indented. */
  function ValueLines(u: Updater, full: string): Result<string>
  {
    var indents := Indents(full);
    var split := Split(full, ".");
    if split == [] then Err(IndexOutOfBounds)
    else
      var trailingKey := split[|split| - 1];
      var value := ValueAt(u, full);
      if value.Some? && value.value.Sub? then
        Ok(indents + trailingKey + ":" + (if value.value.section.entries == [] then " {}\n" else "\n"))
      else
        var yaml := u.ext.save(trailingKey, value);
        if yaml == [] then Err(IndexOutOfBounds)
        else Ok(indents + ReplaceChar(yaml[..|yaml| - 1], '\n', "\n" + indents) + "\n")
  }

  /** What one turn of the main loop of `update` writes for `full`. */
  function Emit(u: Updater, full: string): Result<string>
  {
    if full in u.ignored then Ok(u.ignored[full])
    else if UnderIgnored(full, u.ignored) then Ok("")
    else
      var comment :- CommentFor(u, full);
      var lines :- ValueLines(u, full);
      Ok(comment + lines)
  }

  function EmitOf(u: Updater): string -> Result<string>
  {
    full => Emit(u, full)
  }

  /** The writer after the keys from index `i` on have been written behind
      `out`, or the failure of the first key that throws. */
  function WrittenFrom(keys: seq<string>, i: nat, out: string, emit: string -> Result<string>): Result<string>
    requires i <= |keys|
    decreases |keys| - i
  {
    if i == |keys| then Ok(out)
    else
      var e :- emit(keys[i]);
      WrittenFrom(keys, i + 1, out + e, emit)
  }

  /** The whole merged file: every deep key of the default configuration in
      order, then the comment block left after the last key of the default
      file. */
  function Merged(u: Updater): Result<string>
  {
    var body :- WrittenFrom(DeepKeys(u.def), 0, "", EmitOf(u));
    Ok(body + (if u.comments.trailing.Some? then u.comments.trailing.value else ""))
  }

  /** `update`, given the current text of the user's file: the merged text,
      and whether the file has to be written (only when the text differs,
      so that an up-to-date file is left alone). */
  method Update(u: Updater, existing: string) returns (r: Result<(string, bool)>)
    ensures Merged(u).Err? ==> r == Err(Merged(u).failure)
    ensures Merged(u).Ok? ==> r == Ok((Merged(u).value, Merged(u).value != existing))
  {
    var keys := DeepKeys(u.def);
    var writer := "";
    var i := 0;
    while i < |keys|
      invariant 0 <= i <= |keys|
      invariant WrittenFrom(keys, 0, "", EmitOf(u)) == WrittenFrom(keys, i, writer, EmitOf(u))
    {
      var e := WriteKey(u, keys[i]);
      if e.Err? {
        return Err(e.failure);
      }
      writer := writer + e.value;
      i := i + 1;
    }
    if u.comments.trailing.Some? {
      writer := writer + u.comments.trailing.value;
    } else {
      assert writer + "" == writer;
    }
    return Ok((writer, writer != existing));
  }

  /** One turn of the main loop: what it writes for `full`. */
  method WriteKey(u: Updater, full: string) returns (r: Result<string>)
    ensures r == EmitOf(u)(full)
  {
    var indents := GetIndents(full);
    if |u.ignored| > 0 {
      if full in u.ignored {
        return Ok(u.ignored[full]);
      }
      var skip := UnderIgnoredLoop(full, u.ignored);
      if skip {
        return Ok("");
      }
    } else {
      assert !UnderIgnored(full, u.ignored);
    }
    var out := "";
    if full in u.comments.byPath {
      var comment := u.comments.byPath[full];
      if |comment| == 0 {
        return Err(IndexOutOfBounds);
      }
      out := indents + ReplaceChar(comment[..|comment| - 1], '\n', "\n" + indents) + "\n";
    }
    assert CommentFor(u, full) == Ok(out);
    var lines := WriteValue(u, full, indents);
    if lines.Err? {
      return Err(lines.failure);
    }
    return Ok(out + lines.value);
  }

  /** The rest of that turn: the value's line or lines. */
  method WriteValue(u: Updater, full: string, indents: string) returns (r: Result<string>)
    requires indents == Indents(full)
    ensures r == ValueLines(u, full)
  {
    var value := Get(u.current, full);
    if value.None? {
      value := Get(u.def, full);
    }
    var split := Split(full, ".");
    if |split| == 0 {
      return Err(IndexOutOfBounds);
    }
    var trailingKey := split[|split| - 1];
    if value.Some? && value.value.Sub? {
      var temp := "\n";
      if |value.value.section.entries| == 0 {
        temp := " {}" + temp;
        assert temp == " {}\n";
      }
      return Ok(indents + trailingKey + ":" + temp);
    }
    var yaml := u.ext.save(trailingKey, value);
    if |yaml| == 0 {
      return Err(IndexOutOfBounds);
    }
    yaml := ReplaceChar(yaml[..|yaml| - 1], '\n', "\n" + indents);
    return Ok(indents + yaml + "\n");
  }

  /** Writing behind `out` is writing behind nothing with `out` in front. */
  lemma {:induction false} WrittenBehind(keys: seq<string>, i: nat, out: string, emit: string -> Result<string>)
    requires i <= |keys|
    ensures WrittenFrom(keys, i, out, emit) == Later(out, WrittenFrom(keys, i, "", emit))
    decreases |keys| - i
  {
    if i == |keys| {
      assert out + "" == out;
    } else if emit(keys[i]).Ok? {
      var e := emit(keys[i]).value;
      WrittenBehind(keys, i + 1, out + e, emit);
      WrittenBehind(keys, i + 1, "" + e, emit);
      assert "" + e == e;
      LaterLater(out, e, WrittenFrom(keys, i + 1, "", emit));
    }
  }

  /** The merged text is each key's text in turn: the text of the first
      key, then the text of the rest. */
  lemma WrittenFirst(keys: seq<string>, i: nat, emit: string -> Result<string>)
    requires i < |keys|
    ensures WrittenFrom(keys, i, "", emit)
      == match emit(keys[i])
         case Err(f) => Err(f)
         case Ok(e) => Later(e, WrittenFrom(keys, i + 1, "", emit))
  {
    if emit(keys[i]).Ok? {
      var e := emit(keys[i]).value;
      assert "" + e == e;
      WrittenBehind(keys, i + 1, e, emit);
    }
  }

  /** An ignored section is written as its copied text, whatever the
      default file says about it. */
  lemma IgnoredCopied(u: Updater, full: string)
    requires full in u.ignored
    ensures Emit(u, full) == Ok(u.ignored[full])
  {
  }

  /** Nothing is written for a key strictly below an ignored section (the
      copied text already holds it). */
  lemma BelowIgnoredSkipped(u: Updater, key: string, rest: string)
    requires key in u.ignored && key != ""
    requires key + "." + rest !in u.ignored
    ensures Emit(u, key + "." + rest) == Ok("")
  {
    var full := key + "." + rest;
    assert full[..|key|] == key;
    assert full[|key|..] == "." + rest;
    assert (full[|key|..])[..1] == ".";
    assert Below(full, key);
  }

  /** The user's value wins over the default: where the user's configuration
      holds `full`, the default configuration makes no difference to what
      is written for it. */
  lemma CurrentWins(u: Updater, full: string, otherDef: Section)
    requires Get(u.current, full).Some?
    ensures ValueLines(u, full) == ValueLines(u.(def := otherDef), full)
  {
  }

  /** Where the user's configuration lacks `full`, the default's value is
      written: the user's other keys make no difference to it. */
  lemma DefaultFills(u: Updater, full: string, otherCurrent: Section)
    requires Get(u.current, full).None? && Get(otherCurrent, full).None?
    ensures ValueLines(u, full) == ValueLines(u.(current := otherCurrent), full)
  {
  }

  /** A value that saves as one line `line` is written on that line, at the
      depth of its path. */
  lemma SingleLineValue(u: Updater, full: string, line: string)
    requires Split(full, ".") != []
    requires var value := ValueAt(u, full); !(value.Some? && value.value.Sub?)
    requires u.ext.save(Split(full, ".")[|Split(full, ".")| - 1], ValueAt(u, full)) == line + "\n"
    requires '\n' !in line
    ensures ValueLines(u, full) == Ok(Indents(full) + line + "\n")
  {
    assert (line + "\n")[..|line|] == line;
  }

  /** A comment block of lines is written with every line at the depth of
      the key it precedes. */
  lemma {:induction false} CommentLinesIndented(indents: string, lines: seq<string>)
    requires lines != []
    requires forall i :: 0 <= i < |lines| ==> '\n' !in lines[i]
    ensures CommentText(indents, Unlines(lines)) == Ok(Unlines(Prefixed(indents, lines)))
    decreases |lines|
  {
    var l := lines[0];
    var rest := lines[1..];
    var c := Unlines(lines);
    assert Prefixed(indents, lines) == [indents + l] + Prefixed(indents, rest);
    if rest == [] {
      assert Unlines(rest) == [];
      assert c == l + "\n" + [];
      assert l + "\n" + [] == l + "\n";
      assert c[..|c| - 1] == l;
      assert Unlines(Prefixed(indents, lines)) == indents + l + "\n";
      assert CommentText(indents, c) == Ok(indents + ReplaceChar(l, '\n', "\n" + indents) + "\n");
    } else {
      CommentLinesIndented(indents, rest);
      ReindentStep(indents, l, Unlines(rest));
      Regroup(indents, l, "\n");
    }
  }

  /** One line more in front of a block adds that line, indented. */
  lemma ReindentStep(indents: string, l: string, u: string)
    requires '\n' !in l && u != []
    ensures CommentText(indents, l + "\n" + u).Ok? && CommentText(indents, u).Ok?
    ensures CommentText(indents, l + "\n" + u).value == indents + l + "\n" + CommentText(indents, u).value
  {
    var c := l + "\n" + u;
    var sep := "\n" + indents;
    var u' := u[..|u| - 1];
    assert c[..|c| - 1] == l + "\n" + u';
    ReplaceCharAppend(l + "\n", u', '\n', sep);
    ReplaceCharAppend(l, "\n", '\n', sep);
    assert ReplaceChar("\n", '\n', sep) == sep;
    var ru := ReplaceChar(u', '\n', sep);
    assert ReplaceChar(c[..|c| - 1], '\n', sep) == l + sep + ru;
    var b := indents + ru;
    assert CommentText(indents, c) == Ok(indents + (l + sep + ru) + "\n");
    assert CommentText(indents, u) == Ok(b + "\n");
    calc {
      indents + (l + sep + ru) + "\n";
      { Regroup(l, sep, ru); }
      indents + (l + (sep + ru)) + "\n";
      { Regroup("\n", indents, ru); }
      indents + (l + ("\n" + b)) + "\n";
      { Regroup(indents, l, "\n" + b); Regroup(indents + l, "\n", b); }
      indents + l + "\n" + b + "\n";
      { Regroup(indents + l + "\n", b, "\n"); }
      indents + l + "\n" + (b + "\n");
    }
  }
}
