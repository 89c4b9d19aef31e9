/** `YAMLUpdater.KeyBuilder`: the dotted path of the key a raw line of the
    default file declares, grown and shrunk while the lines are read. */
module KeyPaths {
  import opened Results
  import opened JavaText
  import Sections

  function Max(a: int, b: int): int {
    if a < b then b else a
  }

  /** The key name a line declares: the text before its first `:` once
      the line is trimmed (or before its first `": "` when the line has
      more than one colon-separated part), with every quote removed. None
      where the split leaves nothing, where the source's `current[0]`
      throws. */
  function Token(line: string): (r: Option<string>)
    ensures r.Some? ==> '\'' !in r.value && '"' !in r.value
  {
    var t := Trim(line);
    var parts := if |Split(t, ":")| > 2 then Split(t, ": ") else Split(t, ":");
    if parts == [] then None else Some(RemoveChar(RemoveChar(parts[0], '\''), '"'))
  }

  /** `removeLastKey` as a function of the path: the path less its last
      segment and the separator before it. None where the source indexes
      an empty split (a path made only of separators). */
  function DropLast(b: string): (r: Option<string>)
    ensures r.Some? ==> |r.value| <= |b| && r.value == b[..|r.value|]
    ensures r.Some? && b != "" ==> |r.value| < |b|
  {
    if b == "" then Some("")
    else
      var segments := Split(b, ".");
      if segments == [] then None
      else Some(b[..Max(0, |b| - |segments[|segments| - 1]| - 1)])
  }

  /** Repeated `removeLastKey` empties `b` without throwing. */
  predicate Clears(b: string)
    decreases |b|
  {
    b == "" || (DropLast(b).Some? && Clears(DropLast(b).value))
  }

  /** The path `parseLine` leaves once the line's key is known: under the
      existence check, a path whose extension by `key` is not a key of
      `config` is emptied, and the key starts a new path. None where the
      emptying throws. */
  function Extend(b: string, key: string, checkIfExists: bool, config: Sections.Section): Option<string>
  {
    if checkIfExists && b != "" && !Sections.Contains(config, b + "." + key) then
      if Clears(b) then Some(key) else None
    else Some(if b == "" then key else b + "." + key)
  }

  /** The outcome of `parseLine(line, checkIfExists)` on path `b`. */
  function ParseLineSpec(b: string, line: string, checkIfExists: bool, config: Sections.Section): Option<string>
  {
    match Token(line)
    case None => None
    case Some(key) => Extend(b, key, checkIfExists, config)
  }

  class KeyBuilder {
    /** The configuration the existence check consults. */
    const config: Sections.Section
    /** The path built so far. */
    var b: string

    constructor (config: Sections.Section)
      ensures this.config == config && b == ""
    {
      this.config := config;
      b := "";
    }

    /** `KeyBuilder(KeyBuilder key)`: a copy with the same path. */
    constructor Copy(other: KeyBuilder)
      ensures config == other.config && b == other.b
    {
      config := other.config;
      b := other.b;
    }

    /** `toString`. */
    function Path(): string
      reads this
    {
      b
    }

    /** `isEmpty`. */
    function IsEmpty(): (r: bool)
      reads this
      ensures r <==> |Path()| == 0
    {
      |b| == 0
    }

    /** `clear`. */
    method Clear()
      modifies this
      ensures b == ""
    {
      b := "";
    }

    /** `removeLastKey`; false where the source throws. */
    method RemoveLastKey() returns (ok: bool)
      modifies this
      ensures ok <==> DropLast(old(b)).Some?
      ensures ok ==> b == DropLast(old(b)).value
      ensures !ok ==> b == old(b)
    {
      var length := |b|;
      if length != 0 {
        var s := Split(b, ".");
        if |s| == 0 {
          return false;
        }
        b := b[..Max(0, length - |s[|s| - 1]| - 1)];
      }
      return true;
    }

    /** `parseLine(line, checkIfExists)`; false where the source throws
        (the path is then left part-way, as the exception leaves it). */
    method ParseLine(line: string, checkIfExists: bool) returns (ok: bool)
      modifies this
      ensures ok <==> ParseLineSpec(old(b), line, checkIfExists, config).Some?
      ensures ok ==> b == ParseLineSpec(old(b), line, checkIfExists, config).value
    {
      var key := ReadToken(line);
      if key.None? {
        return false;
      }
      ok := ExtendBy(key.value, checkIfExists);
    }

    /** The start of `parseLine`: the line's key, None where `current[0]`
        throws. */
    static method ReadToken(line: string) returns (key: Option<string>)
      ensures key == Token(line)
    {
      var t := Trim(line);
      var current := Split(t, ":");
      if |current| > 2 {
        current := Split(t, ": ");
      }
      if |current| == 0 {
        return None;
      }
      key := Some(RemoveChar(RemoveChar(current[0], '\''), '"'));
    }

    /** The rest of `parseLine` once the line's key is known: the
        existence check's loop, then the key appended. */
    method ExtendBy(key: string, checkIfExists: bool) returns (ok: bool)
      modifies this
      ensures ok <==> Extend(old(b), key, checkIfExists, config).Some?
      ensures ok ==> b == Extend(old(b), key, checkIfExists, config).value
    {
      var s := b;
      if checkIfExists {
        while |b| > 0 && !Sections.Contains(config, s + "." + key)
          invariant Sections.Contains(config, s + "." + key) ==> b == s
          invariant Clears(b) == Clears(s)
          invariant b == s || b == "" || !Sections.Contains(config, s + "." + key)
          decreases |b|
        {
          var removed := RemoveLastKey();
          if !removed {
            return false;
          }
        }
      }
      if |b| > 0 {
        b := b + ".";
      }
      b := b + key;
      return true;
    }
  }

  /** Dropping the last segment undoes appending a separator and a
      segment, whatever the path before it. */
  lemma DropLastAppended(p: string, segment: string)
    requires segment != "" && '.' !in segment
    ensures DropLast(p + "." + segment) == Some(p)
  {
    var b := p + "." + segment;
    SplitLastPiece(p, '.', segment);
    assert b[..|p|] == p;
  }

  /** A path of one segment drops to the empty path. */
  lemma DropLastSingle(segment: string)
    requires '.' !in segment
    ensures DropLast(segment) == Some("")
  {
    if segment != "" {
      SplitNoSeparator(segment, '.');
    }
  }

  /** Under the existence check a path is either extended by the new key,
      when the extension is a key of the configuration, or restarted at
      the key: never cut back part-way. */
  lemma ExtendNeverPartial(b: string, key: string, config: Sections.Section)
    requires Extend(b, key, true, config).Some?
    ensures var r := Extend(b, key, true, config).value;
      r == key || (r == b + "." + key && Sections.Contains(config, r))
  {
  }

  /** A line `k: v` declares the key `k`, unquoted, once `k` and `v` are
      free of colons. */
  lemma TokenOfKeyLine(line: string, k: string, v: string)
    requires Trim(line) == k + ":" + v && k != "" && ':' !in k && ':' !in v
    ensures Token(line) == Some(RemoveChar(RemoveChar(k, '\''), '"'))
  {
    var t := Trim(line);
    assert t == k + [':'] + v;
    PiecesAppend(k, ':', v);
    PiecesNoSeparator(k, ':');
    assert OccursAt(t, ":", |k|);
    assert IndexOf(t, ":") != -1;
    var ps := Split(t, ":");
    assert Pieces(t, ":") == [k, v];
    assert ps == DropTrailingEmpty([k, v]);
    assert |ps| >= 1 && ps[0] == k;
  }

  /** A line with more than two colon-separated parts declares the text
      before its first `": "`, unquoted: `url: http://x` declares `url`. */
  lemma TokenOfMultiColonLine(line: string, k: string, v: string)
    requires Trim(line) == k + ": " + v && ':' !in k && |Split(Trim(line), ":")| > 2
    ensures Token(line) == Some(RemoveChar(RemoveChar(k, '\''), '"'))
  {
    var t := Trim(line);
    IndexOfAfter(k, ": ", v);
    assert t[|t| - 1] == ' ' ==> IsTrimmable(t[|t| - 1]);
    SplitKeepsPieces(t, ": ");
    assert Pieces(t, ": ")[0] == t[..|k|] == k;
  }

  /** `current[0]` throws exactly for a line that, once trimmed, is one or
      more colons and nothing else. */
  lemma TokenNone(line: string)
    ensures Token(line).None? <==> Trim(line) != "" && forall c :: c in Trim(line) ==> c == ':'
  {
    var t := Trim(line);
    SplitEmptyOnlySeparators(t, ':');
    if |Split(t, ":")| > 2 {
      assert t != [];
      assert t[|t| - 1] == ' ' ==> IsTrimmable(t[|t| - 1]);
      SplitKeepsPieces(t, ": ");
    }
  }
}
