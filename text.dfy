/**
 * The string operations of Rust's `str` that the request parser and the
 * router rely on: `split` on a string or character pattern, `split_once`,
 * `split_whitespace`, `trim` and `strip_prefix`.  Strings are sequences of
 * Unicode scalar values, as Rust's `char` is.
 */
module Text {
  import opened Results

  /** Rust's `char::is_whitespace`: the Unicode White_Space property. */
  predicate IsWhitespace(c: char) {
    || ('\t' <= c <= '\r')
    || c == ' '
    || c == '\U{85}'
    || c == '\U{A0}'
    || c == '\U{1680}'
    || ('\U{2000}' <= c <= '\U{200A}')
    || c == '\U{2028}'
    || c == '\U{2029}'
    || c == '\U{202F}'
    || c == '\U{205F}'
    || c == '\U{3000}'
  }

  predicate NoWhitespace(s: string) {
    forall i :: 0 <= i < |s| ==> !IsWhitespace(s[i])
  }

  // ---------------------------------------------------------------------
  // Occurrences of a separator
  // ---------------------------------------------------------------------

  /** `sep` occurs in `s` starting at index `i`. */
  predicate OccursAt(s: string, sep: string, i: nat) {
    i + |sep| <= |s| && s[i..i + |sep|] == sep
  }

  /** `i` is the leftmost index at which `sep` occurs in `s`. */
  ghost predicate FirstOccurrence(s: string, sep: string, i: nat) {
    OccursAt(s, sep, i) && forall j: nat :: j < i ==> !OccursAt(s, sep, j)
  }

  ghost predicate NoOccurrence(s: string, sep: string) {
    forall j: nat :: !OccursAt(s, sep, j)
  }

  lemma OccursAtShift(s: string, sep: string, j: nat)
    requires s != []
    ensures OccursAt(s[1..], sep, j) <==> OccursAt(s, sep, j + 1)
  {
    if j + 1 + |sep| <= |s| {
      assert s[1..][j..j + |sep|] == s[j + 1..j + 1 + |sep|];
    }
  }

  /** An occurrence seen in a suffix is an occurrence in the whole string, shifted. */
  lemma OccursAtDrop(s: string, sep: string, m: nat, j: nat)
    requires m <= j && m <= |s|
    ensures OccursAt(s[m..], sep, j - m) <==> OccursAt(s, sep, j)
  {
    if j + |sep| <= |s| {
      assert s[m..][j - m..j - m + |sep|] == s[j..j + |sep|];
    }
  }

  // ---------------------------------------------------------------------
  // split / join
  // ---------------------------------------------------------------------

  /**
   * Rust's `s.split(sep)` collected into a vector: the pieces between the
   * leftmost non-overlapping occurrences of `sep`, scanning left to right.
   * There is always at least one piece.
   */
  function Split(s: string, sep: string): (parts: seq<string>)
    requires sep != []
    ensures |parts| >= 1
    decreases |s|
  {
    if |s| < |sep| then [s]
    else if s[..|sep|] == sep then [""] + Split(s[|sep|..], sep)
    else
      var rest := Split(s[1..], sep);
      [[s[0]] + rest[0]] + rest[1..]
  }

  /** Splitting on a one-character separator leaves that character in no piece. */
  lemma {:induction false} SplitPiecesAvoid(s: string, c: char)
    ensures forall k :: 0 <= k < |Split(s, [c])| ==> c !in Split(s, [c])[k]
    decreases |s|
  {
    if |s| >= 1 {
      SplitPiecesAvoid(s[1..], c);
      var rest := Split(s[1..], [c]);
      if s[..1] != [c] {
        assert s[..1] == [s[0]];
        var parts := [[s[0]] + rest[0]] + rest[1..];
        assert Split(s, [c]) == parts;
        forall k | 0 <= k < |parts| ensures c !in parts[k] {
          if k > 0 {
            assert parts[k] == rest[k];
          }
        }
      } else {
        assert Split(s, [c]) == [""] + rest;
      }
    }
  }

  /** The inverse of `Split`: the pieces glued back with `sep` between them. */
  function Join(parts: seq<string>, sep: string): (s: string)
    requires |parts| >= 1
    decreases |parts|
  {
    if |parts| == 1 then parts[0] else parts[0] + sep + Join(parts[1..], sep)
  }

  /** The joined string starts with the first piece. */
  lemma JoinStartsWith(parts: seq<string>, sep: string)
    requires |parts| >= 1
    ensures parts[0] <= Join(parts, sep)
  {
  }

  /** Splitting loses nothing: joining the pieces again gives back the input. */
  lemma {:induction false} JoinSplit(s: string, sep: string)
    requires sep != []
    ensures Join(Split(s, sep), sep) == s
    decreases |s|
  {
    if |s| < |sep| {
    } else if s[..|sep|] == sep {
      var rest := Split(s[|sep|..], sep);
      JoinSplit(s[|sep|..], sep);
      if |rest| == 1 {
        assert Join([""] + rest, sep) == "" + sep + Join(rest, sep);
      } else {
        assert ([""] + rest)[1..] == rest;
      }
    } else {
      var rest := Split(s[1..], sep);
      JoinSplit(s[1..], sep);
      JoinCons(s[0], rest, sep);
    }
  }

  lemma JoinCons(c: char, rest: seq<string>, sep: string)
    requires |rest| >= 1
    ensures Join([[c] + rest[0]] + rest[1..], sep) == [c] + Join(rest, sep)
  {
    var parts := [[c] + rest[0]] + rest[1..];
    if |rest| > 1 {
      assert parts[1..] == rest[1..];
    }
  }

  /** Without an occurrence of `sep` the input is a single piece. */
  lemma {:induction false} SplitNoOccurrence(s: string, sep: string)
    requires sep != [] && NoOccurrence(s, sep)
    ensures Split(s, sep) == [s]
    decreases |s|
  {
    if |s| >= |sep| {
      assert !OccursAt(s, sep, 0);
      forall j: nat ensures !OccursAt(s[1..], sep, j) {
        OccursAtShift(s, sep, j);
      }
      SplitNoOccurrence(s[1..], sep);
      assert [s[0]] + s[1..] == s;
    }
  }

  /** The first piece is the text before the leftmost occurrence of `sep`. */
  lemma {:induction false} SplitAtFirst(s: string, sep: string, i: nat)
    requires sep != [] && FirstOccurrence(s, sep, i)
    ensures Split(s, sep) == [s[..i]] + Split(s[i + |sep|..], sep)
    decreases i
  {
    if i == 0 {
      assert s[..|sep|] == sep;
    } else {
      var t := s[1..];
      assert !OccursAt(s, sep, 0);
      assert |s| >= |sep| && s[..|sep|] != sep;
      OccursAtShift(s, sep, i - 1);
      forall j: nat | j < i - 1 ensures !OccursAt(t, sep, j) {
        OccursAtShift(s, sep, j);
      }
      SplitAtFirst(t, sep, i - 1);
      var rest := Split(t, sep);
      assert Split(s, sep) == [[s[0]] + rest[0]] + rest[1..];
      assert rest[0] == t[..i - 1];
      assert t[i - 1 + |sep|..] == s[i + |sep|..];
      assert [s[0]] + t[..i - 1] == s[..i];
    }
  }

  /** A string without the separator's first character has no occurrence of it. */
  lemma NoLeadCharNoOccurrence(s: string, sep: string)
    requires sep != [] && sep[0] !in s
    ensures NoOccurrence(s, sep)
  {
    forall j: nat ensures !OccursAt(s, sep, j) {
      if j + |sep| <= |s| {
        assert s[j..j + |sep|][0] == s[j];
      }
    }
  }

  /**
   * When no piece contains the separator's first character, `Split` undoes
   * `Join`: the decomposition is unique.
   */
  lemma {:induction false} SplitJoin(parts: seq<string>, sep: string)
    requires sep != [] && |parts| >= 1
    requires forall k :: 0 <= k < |parts| ==> sep[0] !in parts[k]
    ensures Split(Join(parts, sep), sep) == parts
    decreases |parts|
  {
    if |parts| == 1 {
      NoLeadCharNoOccurrence(parts[0], sep);
      SplitNoOccurrence(parts[0], sep);
    } else {
      var s := Join(parts, sep);
      var p := parts[0];
      assert s == p + sep + Join(parts[1..], sep);
      assert OccursAt(s, sep, |p|) by {
        assert s[|p|..|p| + |sep|] == sep;
      }
      forall j: nat | j < |p| ensures !OccursAt(s, sep, j) {
        assert s[j] == p[j];
      }
      SplitAtFirst(s, sep, |p|);
      assert s[..|p|] == p;
      assert s[|p| + |sep|..] == Join(parts[1..], sep);
      SplitJoin(parts[1..], sep);
      assert [p] + parts[1..] == parts;
    }
  }

  // ---------------------------------------------------------------------
  // split_once
  // ---------------------------------------------------------------------

  /**
   * Rust's `s.split_once(c)`: the text before and after the first `c`,
   * or `None` when `c` does not occur.
   */
  function SplitOnce(s: string, c: char): (r: Option<(string, string)>)
    ensures r.None? <==> c !in s
    ensures r.Some? ==> s == r.value.0 + [c] + r.value.1 && c !in r.value.0
    decreases |s|
  {
    if s == [] then None
    else if s[0] == c then Some(([], s[1..]))
    else
      match SplitOnce(s[1..], c)
      case None => None
      case Some(parts) => Some(([s[0]] + parts.0, parts.1))
  }

  /** The split point is the first `c`, so the pieces are determined by it. */
  lemma {:induction false} SplitOnceAt(a: string, c: char, b: string)
    requires c !in a
    ensures SplitOnce(a + [c] + b, c) == Some((a, b))
    decreases |a|
  {
    if a != [] {
      var s := a + [c] + b;
      assert s[0] == a[0] && a[0] != c;
      assert s[1..] == a[1..] + [c] + b;
      SplitOnceAt(a[1..], c, b);
      assert [a[0]] + a[1..] == a;
    }
  }

  // ---------------------------------------------------------------------
  // split_whitespace
  // ---------------------------------------------------------------------

  /** Length of the run of non-whitespace characters at the start of `s`. */
  function WordEnd(s: string): (n: nat)
    requires s != [] && !IsWhitespace(s[0])
    ensures 1 <= n <= |s| && NoWhitespace(s[..n])
    ensures n < |s| ==> IsWhitespace(s[n])
    decreases |s|
  {
    if |s| == 1 || IsWhitespace(s[1]) then 1 else 1 + WordEnd(s[1..])
  }

  /**
   * Rust's `s.split_whitespace()` collected: the maximal runs of
   * non-whitespace characters, in order; every word is non-empty and
   * free of whitespace.
   */
  function Words(s: string): (ws: seq<string>)
    ensures forall k :: 0 <= k < |ws| ==> ws[k] != [] && NoWhitespace(ws[k])
    ensures NoWhitespace(s) && s != [] ==> ws == [s]
    decreases |s|
  {
    if s == [] then []
    else if IsWhitespace(s[0]) then Words(s[1..])
    else
      var n := WordEnd(s);
      assert NoWhitespace(s) ==> n == |s| && s[..n] == s && s[n..] == [];
      [s[..n]] + Words(s[n..])
  }

  lemma {:induction false} WordEndOfWord(w: string, rest: string)
    requires w != [] && NoWhitespace(w)
    requires rest == [] || IsWhitespace(rest[0])
    ensures WordEnd(w + rest) == |w|
    decreases |w|
  {
    if |w| > 1 {
      assert (w + rest)[1..] == w[1..] + rest;
      WordEndOfWord(w[1..], rest);
    }
  }

  /** A whitespace character before the text changes nothing: leading and repeated whitespace is skipped. */
  lemma WordsSkipsWhitespace(c: char, s: string)
    requires IsWhitespace(c)
    ensures Words([c] + s) == Words(s)
  {
    assert ([c] + s)[1..] == s;
  }

  /** Text made of whitespace only has no words. */
  lemma {:induction false} WordsOfBlank(s: string)
    requires forall i :: 0 <= i < |s| ==> IsWhitespace(s[i])
    ensures Words(s) == []
    decreases |s|
  {
    if s != [] {
      forall i | 0 <= i < |s| - 1 ensures IsWhitespace(s[1..][i]) {
        assert s[1..][i] == s[i + 1];
      }
      WordsOfBlank(s[1..]);
    }
  }

  /** A word followed by any whitespace character splits off as the first word. */
  lemma WordsSplitOff(w: string, c: char, rest: string)
    requires w != [] && NoWhitespace(w) && IsWhitespace(c)
    ensures Words(w + [c] + rest) == [w] + Words(rest)
  {
    var s := w + [c] + rest;
    assert s == w + ([c] + rest);
    WordEndOfWord(w, [c] + rest);
    assert s[0] == w[0];
    assert s[..|w|] == w;
    assert s[|w|..] == [c] + rest;
    WordsSkipsWhitespace(c, rest);
  }

  /** A word followed by a space splits off as the first word. */
  lemma WordsCons(w: string, rest: string)
    requires w != [] && NoWhitespace(w)
    ensures Words(w + " " + rest) == [w] + Words(rest)
  {
    WordsSplitOff(w, ' ', rest);
  }

  /** `split_whitespace` undoes joining any non-empty list of words with single spaces. */
  lemma {:induction false} WordsJoin(ws: seq<string>)
    requires |ws| >= 1
    requires forall k :: 0 <= k < |ws| ==> ws[k] != [] && NoWhitespace(ws[k])
    ensures Words(Join(ws, " ")) == ws
    decreases |ws|
  {
    if |ws| > 1 {
      var rest := ws[1..];
      forall k | 0 <= k < |rest| ensures rest[k] != [] && NoWhitespace(rest[k]) {
        assert rest[k] == ws[k + 1];
      }
      WordsJoin(rest);
      assert Join(ws, " ") == ws[0] + " " + Join(rest, " ");
      WordsCons(ws[0], Join(rest, " "));
      assert ws == [ws[0]] + rest;
    }
  }

  /** `split_whitespace` undoes joining three words with single spaces. */
  lemma WordsOfThree(a: string, b: string, c: string)
    requires a != [] && NoWhitespace(a)
    requires b != [] && NoWhitespace(b)
    requires c != [] && NoWhitespace(c)
    ensures Words(a + " " + b + " " + c) == [a, b, c]
  {
    assert a + " " + b + " " + c == a + " " + (b + " " + c);
    WordsCons(a, b + " " + c);
    WordsCons(b, c);
  }

  // ---------------------------------------------------------------------
  // trim
  // ---------------------------------------------------------------------

  /** Rust's `trim_start`: drops the leading whitespace and nothing else. */
  function TrimStart(s: string): (r: string)
    ensures |r| <= |s| && r == s[|s| - |r|..]
    ensures forall k :: 0 <= k < |s| - |r| ==> IsWhitespace(s[k])
    ensures r == [] || !IsWhitespace(r[0])
    decreases |s|
  {
    if s != [] && IsWhitespace(s[0]) then TrimStart(s[1..]) else s
  }

  /** Rust's `trim_end`: drops the trailing whitespace and nothing else. */
  function TrimEnd(s: string): (r: string)
    ensures |r| <= |s| && r == s[..|r|]
    ensures forall k :: |r| <= k < |s| ==> IsWhitespace(s[k])
    ensures r == [] || !IsWhitespace(r[|r| - 1])
    decreases |s|
  {
    if s != [] && IsWhitespace(s[|s| - 1]) then TrimEnd(s[..|s| - 1]) else s
  }

  /** Rust's `trim`: whitespace removed from both ends. */
  function Trim(s: string): string {
    TrimEnd(TrimStart(s))
  }

  /** A string with no whitespace at either end is its own trim. */
  predicate IsTrimmed(s: string) {
    s == [] || (!IsWhitespace(s[0]) && !IsWhitespace(s[|s| - 1]))
  }

  lemma TrimIsTrimmed(s: string)
    ensures IsTrimmed(Trim(s))
    ensures IsTrimmed(s) ==> Trim(s) == s
  {
    var t := TrimStart(s);
    var r := TrimEnd(t);
    if r != [] {
      assert r[0] == t[0];
    }
    if IsTrimmed(s) && s != [] {
      assert t == s;
    }
  }

  /** Whitespace before a trimmed string is all that `trim` removes. */
  lemma TrimLeadingSpace(v: string)
    requires IsTrimmed(v)
    ensures Trim(" " + v) == v
  {
    assert (" " + v)[1..] == v;
    assert TrimStart(" " + v) == TrimStart(v);
    TrimIsTrimmed(v);
  }

  // ---------------------------------------------------------------------
  // strip_prefix
  // ---------------------------------------------------------------------

  /** Rust's `s.strip_prefix(p)` for a string pattern (not segment-aligned). */
  function StripPrefix(s: string, p: string): (r: Option<string>)
    ensures r.Some? <==> p <= s
    ensures r.Some? ==> s == p + r.value
  {
    if p <= s then Some(s[|p|..]) else None
  }
}
