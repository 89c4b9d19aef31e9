/** The `java.lang.String` and `StringBuilder` behaviour the core relies on,
    stated over `seq<char>`: trimming, prefix tests, searching, `split` with
    its removal of trailing empty strings, `replace`, and the
    "append a separator only when the builder is not empty" idiom that the
    source writes out by hand in several places. */
module JavaText {

  /** `String.trim` strips every leading and trailing char whose code is at
      most U+0020. */
  predicate IsTrimmable(c: char) {
    c <= ' '
  }

  function TrimStart(s: string): (r: string)
    ensures |r| <= |s| && r == s[|s| - |r|..]
    ensures r != [] ==> !IsTrimmable(r[0])
    ensures forall i :: 0 <= i < |s| - |r| ==> IsTrimmable(s[i])
  {
    if s != [] && IsTrimmable(s[0]) then TrimStart(s[1..]) else s
  }

  function TrimEnd(s: string): (r: string)
    ensures |r| <= |s| && r == s[..|r|]
    ensures r != [] ==> !IsTrimmable(r[|r| - 1])
    ensures forall i :: |r| <= i < |s| ==> IsTrimmable(s[i])
  {
    if s != [] && IsTrimmable(s[|s| - 1]) then TrimEnd(s[..|s| - 1]) else s
  }

  /** `String.trim`. */
  function Trim(s: string): (r: string)
    ensures |r| <= |s|
    ensures r != [] ==> !IsTrimmable(r[0]) && !IsTrimmable(r[|r| - 1])
  {
    TrimEnd(TrimStart(s))
  }

  /** Regrouping a concatenation, stated once so that proofs about texts
      written piece by piece need not rediscover it. */
  lemma Regroup(a: string, b: string, c: string)
    ensures (a + b) + c == a + (b + c)
  {
  }

  lemma TrimWithin(s: string)
    ensures forall x :: x in Trim(s) ==> x in s
  {
    var a := TrimStart(s);
    var r := TrimEnd(a);
    forall x | x in r ensures x in s {
      var j :| 0 <= j < |r| && r[j] == x;
      assert r[j] == a[j];
      assert a[j] == s[|s| - |a| + j];
    }
  }

  /** `String.startsWith`. */
  predicate StartsWith(s: string, prefix: string) {
    |prefix| <= |s| && s[..|prefix|] == prefix
  }

  /** `sep` occurs in `s` starting at index `j`. */
  predicate OccursAt(s: string, sep: string, j: int) {
    0 <= j && j + |sep| <= |s| && s[j..j + |sep|] == sep
  }

  function IndexFrom(s: string, sep: string, k: nat): (i: int)
    requires sep != [] && k <= |s|
    decreases |s| - k
    ensures i == -1 || (k <= i && OccursAt(s, sep, i))
    ensures forall j :: k <= j && (i == -1 || j < i) ==> !OccursAt(s, sep, j)
  {
    if k + |sep| > |s| then -1
    else if s[k..k + |sep|] == sep then k
    else IndexFrom(s, sep, k + 1)
  }

  /** `String.indexOf(sep)`: the first occurrence of `sep`, or -1. */
  function IndexOf(s: string, sep: string): (i: int)
    requires sep != []
    ensures i == -1 || OccursAt(s, sep, i)
    ensures forall j :: 0 <= j && (i == -1 || j < i) ==> !OccursAt(s, sep, j)
  {
    IndexFrom(s, sep, 0)
  }

  /** Every piece between the occurrences of `sep`, empty ones included.
      This is what a Java regex split finds before it drops trailing empty
      strings. */
  function Pieces(s: string, sep: string): (r: seq<string>)
    requires sep != []
    decreases |s|
    ensures |r| >= 1
  {
    var i := IndexOf(s, sep);
    if i < 0 then [s] else [s[..i]] + Pieces(s[i + |sep|..], sep)
  }

  function DropTrailingEmpty(ps: seq<string>): (r: seq<string>)
    ensures |r| <= |ps| && r == ps[..|r|]
    ensures r != [] ==> r[|r| - 1] != ""
    ensures forall i :: |r| <= i < |ps| ==> ps[i] == ""
  {
    if ps != [] && ps[|ps| - 1] == "" then DropTrailingEmpty(ps[..|ps| - 1]) else ps
  }

  /** `String.split(regex)` for a regex that matches exactly the literal
      `sep` (`"[.]"`, `":"`, `": "`, `"\n"` in the source): a string that
      does not contain `sep` gives itself, otherwise the pieces, less the
      trailing empty ones (so a string made only of separators gives `[]`). */
  function Split(s: string, sep: string): seq<string>
    requires sep != []
  {
    if IndexOf(s, sep) < 0 then [s] else DropTrailingEmpty(Pieces(s, sep))
  }

  /** `String.split(regex, 2)`: the part before the first `sep`, and the
      rest after it when there is one (kept even when empty). */
  function SplitFirst(s: string, sep: string): (r: (string, seq<string>))
    requires sep != []
    ensures |r.1| <= 1
    ensures r.1 == [] ==> r.0 == s && IndexOf(s, sep) == -1
    ensures r.1 != [] ==> s == r.0 + sep + r.1[0] && IndexOf(s, sep) == |r.0|
  {
    var i := IndexOf(s, sep);
    if i < 0 then (s, []) else (s[..i], [s[i + |sep|..]])
  }

  /** `String.replace(c, repl)` for a one-char target. */
  function ReplaceChar(s: string, c: char, repl: string): (r: string)
    ensures c !in s ==> r == s
  {
    if s == [] then []
    else (if s[0] == c then repl else [s[0]]) + ReplaceChar(s[1..], c, repl)
  }

  /** `String.replace(c, "")`. */
  function RemoveChar(s: string, c: char): (r: string)
    ensures forall x :: x in r <==> x in s && x != c
    ensures c !in s ==> r == s
    ensures |r| <= |s|
  {
    if s == [] then []
    else (if s[0] == c then [] else [s[0]]) + RemoveChar(s[1..], c)
  }

  function Repeat(s: string, n: nat): (r: string)
    ensures |r| == n * |s|
  {
    if n == 0 then [] else Repeat(s, n - 1) + s
  }

  /** Parts appended to a builder, each after a separator provided the
      builder already holds something: leading empty parts leave no
      separator behind. */
  function Glue(parts: seq<string>, sep: string): string
  {
    if parts == [] then []
    else
      var front := Glue(parts[..|parts| - 1], sep);
      (if |front| > 0 then front + sep else front) + parts[|parts| - 1]
  }

  /** The usual `String.join`, for comparison with `Glue`. */
  function Join(parts: seq<string>, sep: string): string
  {
    if parts == [] then []
    else if |parts| == 1 then parts[0]
    else Join(parts[..|parts| - 1], sep) + sep + parts[|parts| - 1]
  }

  /** Each line followed by a line feed. */
  function Unlines(lines: seq<string>): string
  {
    if lines == [] then [] else lines[0] + "\n" + Unlines(lines[1..])
  }

  /** `Character.isWhitespace`. */
  predicate IsWhitespace(c: char) {
    c == ' ' || c == '\t' || c == '\n' || c == '\U{000B}' || c == '\U{000C}' || c == '\r'
    || ('\U{001C}' <= c <= '\U{001F}') || c == '\U{1680}' || ('\U{2000}' <= c <= '\U{2006}')
    || ('\U{2008}' <= c <= '\U{200A}') || c == '\U{2028}' || c == '\U{2029}' || c == '\U{205F}'
    || c == '\U{3000}'
  }

  /** `StringUtils.isBlank` of commons-lang: null, empty or only whitespace. */
  predicate IsBlank(s: string) {
    forall i :: 0 <= i < |s| ==> IsWhitespace(s[i])
  }

  function AsciiLower(c: char): char {
    if 'A' <= c <= 'Z' then (c as int + 32) as char else c
  }

  /** Full match of the regex `(?i)word`: equality up to ASCII case (Java's
      `(?i)` folds only US-ASCII letters unless UNICODE_CASE is given). */
  predicate EqualsIgnoreCase(s: string, word: string) {
    |s| == |word| && forall i :: 0 <= i < |s| ==> AsciiLower(s[i]) == AsciiLower(word[i])
  }

  function DigitsOf(n: nat): string
  {
    if n < 10 then [('0' as int + n) as char] else DigitsOf(n / 10) + [('0' as int + n % 10) as char]
  }

  /** `Integer.toString` / `Long.toString`. */
  function IntText(n: int): string
  {
    if n < 0 then "-" + DigitsOf(-n) else DigitsOf(n)
  }

  lemma {:induction false} IndexOfIs(s: string, sep: string, j: int)
    requires sep != [] && OccursAt(s, sep, j)
    requires forall k :: 0 <= k < j ==> !OccursAt(s, sep, k)
    ensures IndexOf(s, sep) == j
  {
  }

  lemma {:induction false} IndexOfAbsent(s: string, sep: string)
    requires sep != []
    requires forall k :: 0 <= k <= |s| - |sep| ==> !OccursAt(s, sep, k)
    ensures IndexOf(s, sep) == -1
  {
  }

  /** A separator whose first char the text before it lacks is found
      right after that text. */
  lemma IndexOfAfter(k: string, sep: string, v: string)
    requires sep != [] && sep[0] !in k
    ensures IndexOf(k + sep + v, sep) == |k|
  {
    var t := k + sep + v;
    assert t[|k|..|k| + |sep|] == sep;
    forall j | 0 <= j < |k| ensures !OccursAt(t, sep, j) {
      assert t[j] == k[j] && k[j] != sep[0];
    }
    IndexOfIs(t, sep, |k|);
  }

  /** The pieces are the part `split(regex, 2)` cuts off, then the
      pieces of the rest. */
  lemma PiecesSplitFirst(s: string, sep: string)
    requires sep != []
    ensures SplitFirst(s, sep).1 == [] ==> Pieces(s, sep) == [SplitFirst(s, sep).0]
    ensures SplitFirst(s, sep).1 != [] ==>
      Pieces(s, sep) == [SplitFirst(s, sep).0] + Pieces(SplitFirst(s, sep).1[0], sep)
  {
  }

  /** The last piece is empty only for the empty string or a string
      that ends with `sep`. */
  lemma {:induction false} PiecesLastEmpty(s: string, sep: string)
    requires sep != []
    ensures Pieces(s, sep)[|Pieces(s, sep)| - 1] == "" ==> s == [] || (|sep| <= |s| && s[|s| - |sep|..] == sep)
    decreases |s|
  {
    var i := IndexOf(s, sep);
    if i >= 0 {
      var t := s[i + |sep|..];
      PiecesLastEmpty(t, sep);
      var pt := Pieces(t, sep);
      assert Pieces(s, sep) == [s[..i]] + pt;
      if t == [] {
        assert s[|s| - |sep|..] == s[i..i + |sep|];
      } else if |sep| <= |t| {
        SuffixOfSuffix(s, i + |sep|, |sep|);
      }
    }
  }

  lemma SuffixOfSuffix(s: string, k: nat, m: nat)
    requires k <= |s| && m <= |s| - k
    ensures s[k..][|s| - k - m..] == s[|s| - m..]
  {
  }

  /** A non-empty string that does not end with `sep` loses no piece to
      the removal of trailing empty strings, so its split is never empty. */
  lemma SplitKeepsPieces(s: string, sep: string)
    requires sep != [] && s != []
    requires !(|sep| <= |s| && s[|s| - |sep|..] == sep)
    ensures IndexOf(s, sep) >= 0 ==> Split(s, sep) == Pieces(s, sep)
    ensures Split(s, sep) != []
  {
    var ps := Pieces(s, sep);
    PiecesLastEmpty(s, sep);
    assert ps[|ps| - 1] != "";
  }

  /** A string made only of copies of `c` splits into empty pieces. */
  lemma {:induction false} PiecesOfSeparators(s: string, c: char)
    requires forall x :: x in s ==> x == c
    ensures forall p :: p in Pieces(s, [c]) ==> p == ""
    decreases |s|
  {
    if s != [] {
      assert s[0] in s && s[..1] == [s[0]];
      IndexOfIs(s, [c], 0);
      var t := s[1..];
      assert forall x :: x in t ==> x in s;
      PiecesOfSeparators(t, c);
      assert Pieces(s, [c]) == [""] + Pieces(t, [c]);
    }
  }

  /** Pieces that are all empty are all dropped. */
  lemma {:induction false} DropAllEmpty(ps: seq<string>)
    requires forall i :: 0 <= i < |ps| ==> ps[i] == ""
    ensures DropTrailingEmpty(ps) == []
    decreases |ps|
  {
    if ps != [] {
      DropAllEmpty(ps[..|ps| - 1]);
    }
  }

  /** Only a non-empty string of copies of `c` splits into nothing. */
  lemma {:induction false} SplitEmptyOnlySeparators(s: string, c: char)
    ensures Split(s, [c]) == [] <==> s != [] && forall x :: x in s ==> x == c
  {
    if Split(s, [c]) == [] {
      PiecesEmptyOnlySeparators(s, c);
      assert forall x :: x in s ==> x == c;
    }
    if s != [] && forall x :: x in s ==> x == c {
      PiecesOfSeparators(s, c);
      assert s[0] in s && s[..1] == [s[0]];
      var ps := Pieces(s, [c]);
      assert forall i :: 0 <= i < |ps| ==> ps[i] in ps;
      DropAllEmpty(ps);
    }
  }

  /** A string whose pieces are all empty is made only of copies of `c`. */
  lemma {:induction false} PiecesEmptyOnlySeparators(s: string, c: char)
    requires forall i :: 0 <= i < |Pieces(s, [c])| ==> Pieces(s, [c])[i] == ""
    ensures forall j :: 0 <= j < |s| ==> s[j] == c
    decreases |s|
  {
    var i := IndexOf(s, [c]);
    var ps := Pieces(s, [c]);
    if i >= 0 {
      var t := s[i + 1..];
      var pt := Pieces(t, [c]);
      assert ps == [s[..i]] + pt;
      assert ps[0] == s[..i];
      assert i == 0 && s[0..1] == [c];
      assert forall j :: 0 <= j < |pt| ==> pt[j] == ps[j + 1];
      PiecesEmptyOnlySeparators(t, c);
      assert forall j :: 0 < j < |s| ==> s[j] == t[j - 1];
    } else {
      assert ps == [s] && ps[0] == "";
    }
  }

  /** Appending `c + seg` with `c` absent from `seg` adds exactly one piece. */
  lemma {:induction false} PiecesAppend(p: string, c: char, seg: string)
    requires c !in seg
    ensures Pieces(p + [c] + seg, [c]) == Pieces(p, [c]) + [seg]
    decreases |p|
  {
    var t := p + [c] + seg;
    var i := IndexOf(p, [c]);
    if i < 0 {
      forall k | 0 <= k < |p| ensures !OccursAt(t, [c], k) {
        assert !OccursAt(p, [c], k);
        assert t[k] == p[k];
      }
      assert OccursAt(t, [c], |p|);
      IndexOfIs(t, [c], |p|);
      assert t[|p| + 1..] == seg;
      forall k | 0 <= k <= |seg| - 1 ensures !OccursAt(seg, [c], k) {
        assert seg[k] in seg;
        assert seg[k..k + 1] == [seg[k]];
      }
      IndexOfAbsent(seg, [c]);
      assert Pieces(seg, [c]) == [seg];
      assert t[..|p|] == p;
      assert Pieces(t, [c]) == [t[..|p|]] + Pieces(t[|p| + 1..], [c]);
    } else {
      assert OccursAt(t, [c], i) by { assert t[i] == p[i]; }
      forall k | 0 <= k < i ensures !OccursAt(t, [c], k) {
        assert !OccursAt(p, [c], k);
        assert t[k] == p[k];
      }
      IndexOfIs(t, [c], i);
      assert t[..i] == p[..i];
      assert t[i + 1..] == p[i + 1..] + [c] + seg;
      PiecesAppend(p[i + 1..], c, seg);
    }
  }

  /** Splitting `prefix + c + seg` on `c`, when `seg` is a non-empty piece
      without `c`, ends with `seg`, whatever `prefix` holds. */
  lemma {:induction false} SplitLastPiece(p: string, c: char, seg: string)
    requires c !in seg && seg != []
    ensures var r := Split(p + [c] + seg, [c]); r != [] && r[|r| - 1] == seg
  {
    var t := p + [c] + seg;
    PiecesAppend(p, c, seg);
    assert OccursAt(t, [c], |p|);
    assert IndexOf(t, [c]) != -1;
  }

  /** A string without `sep`'s char is not cut by `split(regex, 2)`. */
  lemma SplitFirstAbsent(s: string, c: char)
    requires c !in s
    ensures SplitFirst(s, [c]) == (s, [])
  {
    forall k | 0 <= k <= |s| - 1 ensures !OccursAt(s, [c], k) {
      assert s[k] in s;
    }
    IndexOfAbsent(s, [c]);
  }

  /** A string without `sep`'s char splits into itself. */
  lemma SplitNoSeparator(s: string, c: char)
    requires c !in s
    ensures Split(s, [c]) == [s]
  {
    forall k | 0 <= k <= |s| - 1 ensures !OccursAt(s, [c], k) {
      assert s[k] in s;
    }
    IndexOfAbsent(s, [c]);
  }

  lemma PiecesNoSeparator(s: string, c: char)
    requires c !in s
    ensures Pieces(s, [c]) == [s]
  {
    forall k | 0 <= k <= |s| - 1 ensures !OccursAt(s, [c], k) {
      assert s[k] in s;
    }
    IndexOfAbsent(s, [c]);
  }

  /** Cutting a join at its separator gives the parts back, empty ones
      included. */
  lemma {:induction false} PiecesJoin(parts: seq<string>, c: char)
    requires parts != [] && forall i :: 0 <= i < |parts| ==> c !in parts[i]
    ensures Pieces(Join(parts, [c]), [c]) == parts
    decreases |parts|
  {
    if |parts| == 1 {
      PiecesNoSeparator(parts[0], c);
    } else {
      var front := parts[..|parts| - 1];
      PiecesJoin(front, c);
      PiecesAppend(Join(front, [c]), c, parts[|parts| - 1]);
      assert front + [parts[|parts| - 1]] == parts;
    }
  }

  /** `split` undoes a join whose last part is not empty. */
  lemma SplitJoin(parts: seq<string>, c: char)
    requires parts != [] && parts[|parts| - 1] != []
    requires forall i :: 0 <= i < |parts| ==> c !in parts[i]
    ensures Split(Join(parts, [c]), [c]) == parts
  {
    if |parts| == 1 {
      SplitNoSeparator(parts[0], c);
    } else {
      var front := Join(parts[..|parts| - 1], [c]);
      assert OccursAt(Join(parts, [c]), [c], |front|);
      PiecesJoin(parts, c);
    }
  }

  /** A line feed at the end makes no difference to `split`, unless it is
      the whole text. */
  lemma SplitDropsTrailingSeparator(s: string, c: char)
    requires s != []
    ensures Split(s + [c], [c]) == Split(s, [c])
  {
    var t := s + [c];
    PiecesAppend(s, c, []);
    assert t == s + [c] + [];
    assert OccursAt(t, [c], |s|);
    var ps := Pieces(s, [c]);
    assert (ps + [""])[..|ps|] == ps;
    assert DropTrailingEmpty(ps + [""]) == DropTrailingEmpty(ps);
    if IndexOf(s, [c]) < 0 {
      assert ps == [s];
    }
  }

  /** With only non-empty parts, `Glue` is the ordinary join. */
  lemma {:induction false} GlueNonEmptyIsJoin(parts: seq<string>, sep: string)
    requires forall i :: 0 <= i < |parts| ==> parts[i] != []
    ensures Glue(parts, sep) == Join(parts, sep)
    decreases |parts|
  {
    if |parts| > 1 {
      var front := parts[..|parts| - 1];
      GlueNonEmptyIsJoin(front, sep);
      GlueNotEmpty(front, sep);
    }
  }

  /** One more part: a separator first, unless nothing has been written. */
  lemma GlueSnoc(parts: seq<string>, part: string, sep: string)
    ensures var front := Glue(parts, sep);
      Glue(parts + [part], sep) == (if |front| > 0 then front + sep else front) + part
  {
    assert (parts + [part])[..|parts|] == parts;
  }

  /** One part is glued to itself. */
  lemma GlueOne(part: string, sep: string)
    ensures Glue([part], sep) == part
  {
    assert [part][..0] == [];
    assert [] + part == part;
  }

  lemma {:induction false} GlueNotEmpty(parts: seq<string>, sep: string)
    requires parts != [] && parts[|parts| - 1] != []
    ensures Glue(parts, sep) != []
  {
  }

  /** `replace` distributes over concatenation. */
  lemma {:induction false} ReplaceCharAppend(a: string, b: string, c: char, repl: string)
    ensures ReplaceChar(a + b, c, repl) == ReplaceChar(a, c, repl) + ReplaceChar(b, c, repl)
    decreases |a|
  {
    if a != [] {
      assert (a + b)[1..] == a[1..] + b;
      ReplaceCharAppend(a[1..], b, c, repl);
    } else {
      assert a + b == b;
    }
  }
}
