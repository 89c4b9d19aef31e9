/** `YAMLUpdater.parseComments`: one pass over the lines of the default
    file that collects every run of comment and blank lines and files it
    under the dotted path of the key line that follows it. A run that no
    key line follows is kept apart (the source files it under the null
    key). */
module CommentScan {
  import opened Results
  import opened JavaText
  import Sections
  import opened KeyPaths

  /** The end of the line that starts at `i`: the first line feed or
      carriage return from `i` on, or the end of the text. */
  function LineEnd(s: string, i: nat): (e: nat)
    requires i <= |s|
    decreases |s| - i
    ensures i <= e <= |s|
    ensures e < |s| ==> s[e] == '\n' || s[e] == '\r'
    ensures forall j :: i <= j < e ==> s[j] != '\n' && s[j] != '\r'
  {
    if i == |s| || s[i] == '\n' || s[i] == '\r' then i else LineEnd(s, i + 1)
  }

  /** `BufferedReader.readLine` until it returns null: lines end at `\n`,
      `\r` or `\r\n`, and a last line without terminator still counts. */
  function ReadLines(s: string): (r: seq<string>)
    decreases |s|
    ensures forall k :: 0 <= k < |r| ==> '\n' !in r[k] && '\r' !in r[k]
  {
    if s == [] then []
    else
      var e := LineEnd(s, 0);
      var next := if e == |s| then |s|
        else if s[e] == '\r' && e + 1 < |s| && s[e + 1] == '\n' then e + 2
        else e + 1;
      assert forall x :: x in s[..e] ==> x != '\n' && x != '\r' by {
        forall x | x in s[..e] ensures x != '\n' && x != '\r' {
          var j :| 0 <= j < e && s[..e][j] == x;
        }
      }
      [s[..e]] + ReadLines(s[next..])
  }

  /** A line as the scanner buffers it: trimmed, on one line, and either
      empty or a comment. */
  predicate CommentLine(t: string) {
    '\n' !in t && (t == "" || (t[0] == '#' && !IsTrimmable(t[|t| - 1])))
  }

  /** A comment block: one or more comment lines, each ended by `\n`. */
  predicate IsBlock(s: string)
    decreases |s|
  {
    var i := IndexOf(s, "\n");
    0 <= i && CommentLine(s[..i]) && (i + 1 == |s| || IsBlock(s[i + 1..]))
  }

  /** What the scanner returns: the blocks by key path, and the block left
      over after the last key line. */
  datatype Comments = Comments(byPath: map<string, string>, trailing: Option<string>)

  predicate WellFormed(c: Comments) {
    (forall k :: k in c.byPath ==> IsBlock(c.byPath[k]))
    && (c.trailing.Some? ==> IsBlock(c.trailing.value))
  }

  /** The scanner's state between two lines: the key builder's path, the
      comment buffer, the last top-level key line (`currentValidKey`) and
      the blocks filed so far. */
  datatype ScanState = ScanState(path: string, buffer: string, anchor: Option<string>, byPath: map<string, string>)

  /** `List.indexOf`. */
  function IndexIn(keys: seq<string>, x: string): (i: int)
    ensures -1 <= i < |keys|
    ensures i >= 0 ==> keys[i] == x
    ensures forall j :: 0 <= j < |keys| && (i == -1 || j < i) ==> keys[j] != x
  {
    if keys == [] then -1
    else if keys[0] == x then 0
    else
      var i := IndexIn(keys[1..], x);
      if i < 0 then -1 else i + 1
  }

  /** Remove trailing segments until the path is a prefix of `next` or is
      empty; None where `removeLastKey` throws. */
  function PopUntil(path: string, next: string): (r: Option<string>)
    decreases |path|
    ensures r.Some? ==> r.value == "" || StartsWith(next, r.value)
  {
    if path == "" || StartsWith(next, path) then Some(path)
    else
      match DropLast(path)
      case None => None
      case Some(p) => PopUntil(p, next)
  }

  /** The look-ahead after a key line: the path is cut back towards the
      next key of the default file; an emptied path is rebuilt from the
      last top-level key line, which throws when there has been none. */
  function Resettle(path: string, next: string, anchor: Option<string>, def: Sections.Section): Result<string>
  {
    match PopUntil(path, next)
    case None => Err(IndexOutOfBounds)
    case Some(p) =>
      if p != "" then Ok(p)
      else
        match anchor
        case None => Err(NullPointer)
        case Some(a) =>
          match ParseLineSpec("", a, false, def)
          case None => Err(IndexOutOfBounds)
          case Some(q) => Ok(q)
  }

  /** The path a key line leaves in the key builder, before the look-ahead;
      None where parsing it throws. */
  function LinePath(st: ScanState, line: string, def: Sections.Section): Option<string>
  {
    ParseLineSpec(if !StartsWith(line, " ") then "" else st.path, Trim(line), true, def)
  }

  /** The blocks once a key line with path `key` has been read: a pending
      block is filed under `key`. */
  function File(st: ScanState, key: string): (r: map<string, string>)
    ensures st.buffer == "" ==> r == st.byPath
    ensures st.buffer != "" ==> r == st.byPath[key := st.buffer]
  {
    if st.buffer != "" then st.byPath[key := st.buffer] else st.byPath
  }

  /** One turn of the scanner's loop for a line that declares a key. */
  function KeyLine(st: ScanState, line: string, keys: seq<string>, def: Sections.Section): (r: Result<ScanState>)
    ensures r.Ok? ==>
      LinePath(st, line, def).Some? && r.value.buffer == ""
      && r.value.byPath == File(st, LinePath(st, line, def).value)
    ensures LinePath(st, line, def).None? ==> r == Err(IndexOutOfBounds)
  {
    match LinePath(st, line, def)
    case None => Err(IndexOutOfBounds)
    case Some(key) => AfterKey(st, key, if !StartsWith(line, " ") then Some(Trim(line)) else st.anchor, keys, def)
  }

  /** The rest of that turn once the line's path `key` is known: the
      pending block is filed under it and, unless it is the last key of the
      default file, the path is resettled towards the next one. */
  function AfterKey(st: ScanState, key: string, anchor: Option<string>, keys: seq<string>, def: Sections.Section): (r: Result<ScanState>)
    ensures r.Ok? ==> r.value.buffer == "" && r.value.anchor == anchor && r.value.byPath == File(st, key)
  {
    var index := IndexIn(keys, key) + 1;
    if index >= |keys| then Ok(ScanState(key, "", anchor, File(st, key)))
    else
      match Resettle(key, keys[index], anchor, def)
      case Err(f) => Err(f)
      case Ok(path) => Ok(ScanState(path, "", anchor, File(st, key)))
  }

  /** One turn of the scanner's loop. */
  function StepLine(st: ScanState, line: string, keys: seq<string>, def: Sections.Section): Result<ScanState>
  {
    var trim := Trim(line);
    if StartsWith(trim, "-") then Ok(st)
    else if trim == "" || StartsWith(trim, "#") then Ok(st.(buffer := st.buffer + trim + "\n"))
    else KeyLine(st, line, keys, def)
  }

  /** The scanner after the given lines, each read by `step`. */
  function ScanWith(lines: seq<string>, step: (ScanState, string) -> Result<ScanState>): Result<ScanState>
  {
    if lines == [] then Ok(ScanState("", "", None, map[]))
    else
      var st :- ScanWith(lines[..|lines| - 1], step);
      step(st, lines[|lines| - 1])
  }

  function Stepper(keys: seq<string>, def: Sections.Section): (ScanState, string) -> Result<ScanState>
  {
    (st, line) => StepLine(st, line, keys, def)
  }

  /** The scanner after the given lines. */
  function Scan(lines: seq<string>, keys: seq<string>, def: Sections.Section): Result<ScanState>
  {
    ScanWith(lines, Stepper(keys, def))
  }

  /** The comments of the default file `text`, whose configuration is `def`. */
  function CommentsOf(text: string, def: Sections.Section): Result<Comments>
  {
    var st :- Scan(ReadLines(text), Sections.DeepKeys(def), def);
    Ok(Comments(st.byPath, if st.buffer != "" then Some(st.buffer) else None))
  }

  /** `parseComments` over the text of the default file. */
  method ParseComments(text: string, def: Sections.Section) returns (r: Result<Comments>)
    ensures r == CommentsOf(text, def)
    ensures r.Ok? ==> WellFormed(r.value)
  {
    var lines := ReadLines(text);
    var keys := Sections.DeepKeys(def);
    var st := ScanLines(lines, keys, def);
    if st.Err? {
      return Err(st.failure);
    }
    var trailing: Option<string> := None;
    if |st.value.buffer| > 0 {
      trailing := Some(st.value.buffer);
    }
    ScanBlocks(lines, keys, def);
    return Ok(Comments(st.value.byPath, trailing));
  }

  /** The reading loop of `parseComments`: each line read in turn with one
      key builder; the first line that throws ends the scan. */
  method ScanLines(lines: seq<string>, keys: seq<string>, def: Sections.Section) returns (r: Result<ScanState>)
    ensures r == Scan(lines, keys, def)
  {
    var comments: map<string, string> := map[];
    var builder := "";
    var kb := new KeyBuilder(def);
    var currentValidKey: Option<string> := None;
    ghost var step := Stepper(keys, def);
    var i := 0;
    while i < |lines|
      invariant 0 <= i <= |lines|
      invariant kb.config == def
      invariant ScanWith(lines[..i], step) == Ok(ScanState(kb.b, builder, currentValidKey, comments))
    {
      assert lines[..i + 1][..i] == lines[..i];
      var before := ScanState(kb.b, builder, currentValidKey, comments);
      var st := ReadLine(kb, before, lines[i], keys);
      assert st == step(before, lines[i]);
      assert ScanWith(lines[..i + 1], step) == st;
      if st.Err? {
        ScanFailureSticks(lines, i + 1, step);
        return Err(st.failure);
      }
      builder, currentValidKey, comments := st.value.buffer, st.value.anchor, st.value.byPath;
      i := i + 1;
    }
    assert lines[..|lines|] == lines;
    return Ok(ScanState(kb.b, builder, currentValidKey, comments));
  }

  /** The body of the scanner's loop, on the key builder. */
  method ReadLine(kb: KeyBuilder, st: ScanState, line: string, keys: seq<string>) returns (r: Result<ScanState>)
    requires kb.b == st.path
    modifies kb
    ensures r == StepLine(st, line, keys, kb.config)
    ensures r.Ok? ==> kb.b == r.value.path
  {
    var trim := Trim(line);
    if StartsWith(trim, "-") {
      return Ok(st);
    }
    if |trim| == 0 || StartsWith(trim, "#") {
      return Ok(st.(buffer := st.buffer + trim + "\n"));
    }
    r := ReadKeyLine(kb, st, line, keys);
  }

  /** The body of the scanner's loop for a key line, on the key builder. */
  method ReadKeyLine(kb: KeyBuilder, st: ScanState, line: string, keys: seq<string>) returns (r: Result<ScanState>)
    requires kb.b == st.path
    modifies kb
    ensures r == KeyLine(st, line, keys, kb.config)
    ensures r.Ok? ==> kb.b == r.value.path
  {
    var currentValidKey := if !StartsWith(line, " ") then Some(Trim(line)) else st.anchor;
    ghost var path := LinePath(st, line, kb.config);
    var parsed := EnterLine(kb, st, line);
    if !parsed {
      assert path.None?;
      return Err(IndexOutOfBounds);
    }
    assert path == Some(kb.b);
    r := FinishKeyLine(kb, st, currentValidKey, keys);
    assert r == AfterKey(st, path.value, currentValidKey, keys, kb.config);
  }

  /** The rest of the loop body for a key line, once the key builder holds
      the line's path: file the pending block, then look ahead. */
  method FinishKeyLine(kb: KeyBuilder, st: ScanState, currentValidKey: Option<string>, keys: seq<string>) returns (r: Result<ScanState>)
    modifies kb
    ensures r == AfterKey(st, old(kb.b), currentValidKey, keys, kb.config)
    ensures r.Ok? ==> kb.b == r.value.path
  {
    var key := kb.Path();
    var comments := File(st, key);
    var index := IndexIn(keys, kb.Path()) + 1;
    if index >= |keys| {
      return Ok(ScanState(key, "", currentValidKey, comments));
    }
    var settled := Settle(kb, keys[index], currentValidKey);
    if settled.Err? {
      return Err(settled.failure);
    }
    return Ok(ScanState(kb.b, "", currentValidKey, comments));
  }

  /** The start of the loop body for a key line: `clear` at a top-level
      line, then `parseLine(trim, true)`. */
  method EnterLine(kb: KeyBuilder, st: ScanState, line: string) returns (ok: bool)
    requires kb.b == st.path
    modifies kb
    ensures ok <==> LinePath(st, line, kb.config).Some?
    ensures ok ==> kb.b == LinePath(st, line, kb.config).value
  {
    if !StartsWith(line, " ") {
      kb.Clear();
    }
    ok := kb.ParseLine(Trim(line), true);
  }

  /** The look-ahead on the key builder: `Resettle` in place. */
  method Settle(kb: KeyBuilder, next: string, currentValidKey: Option<string>) returns (r: Result<string>)
    modifies kb
    ensures r == Resettle(old(kb.b), next, currentValidKey, kb.config)
    ensures r.Ok? ==> kb.b == r.value
  {
    ghost var popped := PopUntil(kb.b, next);
    while !kb.IsEmpty() && !StartsWith(next, kb.Path())
      invariant PopUntil(kb.b, next) == popped
      decreases |kb.b|
    {
      var removed := kb.RemoveLastKey();
      if !removed {
        return Err(IndexOutOfBounds);
      }
    }
    if kb.IsEmpty() {
      if currentValidKey.None? {
        return Err(NullPointer);
      }
      var reparsed := kb.ParseLine(currentValidKey.value, false);
      if !reparsed {
        return Err(IndexOutOfBounds);
      }
    }
    return Ok(kb.b);
  }

  /** Once a line throws, the scan as a whole throws the same. */
  lemma {:induction false} ScanFailureSticks(lines: seq<string>, n: nat, step: (ScanState, string) -> Result<ScanState>)
    requires n <= |lines| && ScanWith(lines[..n], step).Err?
    ensures ScanWith(lines, step) == ScanWith(lines[..n], step)
    decreases |lines| - n
  {
    if n < |lines| {
      assert lines[..n + 1][..n] == lines[..n];
      ScanFailureSticks(lines, n + 1, step);
    } else {
      assert lines[..n] == lines;
    }
  }

  /** The first line feed of `a` is the first of `a + b`. */
  lemma IndexOfPrefix(a: string, b: string)
    requires IndexOf(a, "\n") >= 0
    ensures IndexOf(a + b, "\n") == IndexOf(a, "\n")
  {
    var i := IndexOf(a, "\n");
    forall k | 0 <= k < i ensures !OccursAt(a + b, "\n", k) {
      assert !OccursAt(a, "\n", k);
      assert (a + b)[k] == a[k];
    }
    assert OccursAt(a + b, "\n", i) by { assert (a + b)[i] == a[i]; }
    IndexOfIs(a + b, "\n", i);
  }

  /** A comment line appended to a block (or to nothing) makes a block. */
  lemma {:induction false} BlockExtend(a: string, t: string)
    requires a == "" || IsBlock(a)
    requires CommentLine(t)
    ensures IsBlock(a + t + "\n")
    decreases |a|
  {
    var s := a + t + "\n";
    if a == "" {
      assert s == t + "\n";
      LineBlock(t);
    } else {
      var i := IndexOf(a, "\n");
      IndexOfPrefix(a, t + "\n");
      assert s == a + (t + "\n");
      assert s[..i] == a[..i];
      if i + 1 == |a| {
        assert s[i + 1..] == t + "\n";
        LineBlock(t);
      } else {
        assert s[i + 1..] == a[i + 1..] + t + "\n";
        BlockExtend(a[i + 1..], t);
      }
    }
  }

  /** One comment line ended by a line feed is a block. */
  lemma LineBlock(t: string)
    requires CommentLine(t)
    ensures IsBlock(t + "\n")
  {
    var s := t + "\n";
    forall k | 0 <= k < |t| ensures !OccursAt(s, "\n", k) {
      assert s[k] == t[k];
      assert t[k] in t;
      assert s[k..k + 1] == [s[k]];
    }
    assert OccursAt(s, "\n", |t|) by { assert s[|t|..|t| + 1] == "\n"; }
    IndexOfIs(s, "\n", |t|);
    assert s[..|t|] == t;
  }

  /** A trimmed line of the file that is blank or a comment is a comment line. */
  lemma TrimmedCommentLine(line: string)
    requires '\n' !in line
    requires Trim(line) == "" || StartsWith(Trim(line), "#")
    ensures CommentLine(Trim(line))
  {
    TrimWithin(line);
  }

  /** Everything the scanner buffers or files is a block. */
  predicate Blocks(st: ScanState) {
    (st.buffer == "" || IsBlock(st.buffer)) && forall k :: k in st.byPath ==> IsBlock(st.byPath[k])
  }

  lemma StepKeepsBlocks(st: ScanState, line: string, keys: seq<string>, def: Sections.Section)
    requires Blocks(st) && '\n' !in line
    requires StepLine(st, line, keys, def).Ok?
    ensures Blocks(StepLine(st, line, keys, def).value)
  {
    var trim := Trim(line);
    var r := StepLine(st, line, keys, def);
    if StartsWith(trim, "-") {
      assert r == Ok(st);
    } else if trim == "" || StartsWith(trim, "#") {
      TrimmedCommentLine(line);
      BlockExtend(st.buffer, trim);
      assert r.value == st.(buffer := st.buffer + trim + "\n");
    }
  }

  lemma {:induction false} ScanBlocks(lines: seq<string>, keys: seq<string>, def: Sections.Section)
    requires forall k :: 0 <= k < |lines| ==> '\n' !in lines[k]
    ensures Scan(lines, keys, def).Ok? ==> Blocks(Scan(lines, keys, def).value)
    decreases |lines|
  {
    if lines != [] {
      var front := lines[..|lines| - 1];
      ScanBlocks(front, keys, def);
      var before := Scan(front, keys, def);
      if before.Ok? {
        var last := lines[|lines| - 1];
        assert Scan(lines, keys, def) == StepLine(before.value, last, keys, def);
        if StepLine(before.value, last, keys, def).Ok? {
          StepKeepsBlocks(before.value, last, keys, def);
        }
      }
    }
  }

  /** Every block the scanner returns is a run of trimmed blank or comment
      lines, each ended by a line feed. */
  lemma CommentsWellFormed(text: string, def: Sections.Section)
    requires CommentsOf(text, def).Ok?
    ensures WellFormed(CommentsOf(text, def).value)
  {
    ScanBlocks(ReadLines(text), Sections.DeepKeys(def), def);
  }

  /** A top-level line `k: v` declares the path `k`. */
  lemma TopLevelKeyPath(st: ScanState, line: string, k: string, v: string, def: Sections.Section)
    requires Trim(line) == line && line == k + ":" + v
    requires k != "" && ':' !in k && ':' !in v && '\'' !in k && '"' !in k && k[0] != ' '
    ensures LinePath(st, line, def) == Some(k)
  {
    TokenOfKeyLine(line, k, v);
    assert line[0] == k[0];
  }

  /** A key line files the buffered block under the path it declares and
      empties the buffer; a top-level line `k: v` declares `k` itself. */
  lemma TopLevelLineTakesBlock(st: ScanState, line: string, k: string, v: string, keys: seq<string>, def: Sections.Section)
    requires st.buffer != ""
    requires Trim(line) == line && line == k + ":" + v
    requires k != "" && ':' !in k && ':' !in v && '\'' !in k && '"' !in k
    requires k[0] != '-' && k[0] != '#' && k[0] != ' '
    ensures var r := StepLine(st, line, keys, def);
      r.Ok? ==> r.value.byPath == st.byPath[k := st.buffer] && r.value.buffer == ""
  {
    TopLevelKeyPath(st, line, k, v, def);
    assert line[0] == k[0];
    assert StepLine(st, line, keys, def) == KeyLine(st, line, keys, def);
  }

  /** A dash line (a list item) leaves the scanner as it was. */
  lemma ListItemsSkipped(st: ScanState, line: string, keys: seq<string>, def: Sections.Section)
    requires StartsWith(Trim(line), "-")
    ensures StepLine(st, line, keys, def) == Ok(st)
  {
  }
}
