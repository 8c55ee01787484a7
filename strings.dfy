/**
 * The Python string operations the data-preparation script is built from:
 * `str.split()` with and without a separator, `str.join`, `str.replace`,
 * `str.lower` and `str.splitlines`, each with the lemmas the artifacts need.
 */
module Strings {

  /** Python's `str.isspace()` for one character: the separators of `str.split()`. */
  predicate IsSpace(c: char) {
    var n := c as int;
    n == 0x20 || 0x09 <= n <= 0x0D || 0x1C <= n <= 0x1F || n == 0x85 || n == 0xA0 ||
    n == 0x1680 || 0x2000 <= n <= 0x200A || n == 0x2028 || n == 0x2029 ||
    n == 0x202F || n == 0x205F || n == 0x3000
  }

  predicate NoSpace(s: string) {
    forall i :: 0 <= i < |s| ==> !IsSpace(s[i])
  }

  // ---------------------------------------------------------------------------
  // str.split() with no argument
  // ---------------------------------------------------------------------------

  /** The longest prefix of `s` without whitespace. */
  function Word(s: string): (w: string)
    ensures |w| <= |s| && w == s[..|w|]
    ensures NoSpace(w)
    ensures |w| < |s| ==> IsSpace(s[|w|])
  {
    if s == [] || IsSpace(s[0]) then [] else [s[0]] + Word(s[1..])
  }

  /** `s.split()`: the maximal runs of non-whitespace characters, in order. */
  function Words(s: string): (ws: seq<string>)
    ensures AreWords(ws)
    ensures ws == [] <==> Blank(s)
    decreases |s|
  {
    if s == [] then []
    else if IsSpace(s[0]) then
      var ws := Words(s[1..]);
      assert forall i :: 0 < i < |s| ==> s[i] == s[1..][i - 1];
      ws
    else
      var w := Word(s);
      [w] + Words(s[|w|..])
  }

  /** A run of whitespace (possibly empty). */
  predicate Blank(g: string) {
    forall i :: 0 <= i < |g| ==> IsSpace(g[i])
  }

  /** The whitespace runs of `s` around its words: before the first, between each two, after the last. */
  function Gaps(s: string): (gs: seq<string>)
    ensures gs != []
    ensures s != [] && IsSpace(s[0]) ==> gs[0] != []
    decreases |s|
  {
    if s == [] then [""]
    else if IsSpace(s[0]) then
      var gs := Gaps(s[1..]);
      [[s[0]] + gs[0]] + gs[1..]
    else
      [""] + Gaps(s[|Word(s)|..])
  }

  /** `gaps[0] + ws[0] + gaps[1] + ... + ws[n-1] + gaps[n]`. */
  function Interleave(gaps: seq<string>, ws: seq<string>): string
    requires |gaps| == |ws| + 1
  {
    if ws == [] then gaps[0] else gaps[0] + ws[0] + Interleave(gaps[1..], ws[1..])
  }

  lemma InterleaveCons(c: char, gaps: seq<string>, ws: seq<string>)
    requires |gaps| == |ws| + 1
    ensures Interleave([[c] + gaps[0]] + gaps[1..], ws) == [c] + Interleave(gaps, ws)
  {
    var g := [[c] + gaps[0]] + gaps[1..];
    assert g[1..] == gaps[1..];
  }

  /** `s` is the words `ws` interleaved with the whitespace runs `gaps`, the inner runs non-empty. */
  predicate RebuildsWith(s: string, gaps: seq<string>, ws: seq<string>) {
    |gaps| == |ws| + 1 &&
    (forall j :: 0 <= j < |gaps| ==> Blank(gaps[j])) &&
    (forall j :: 0 < j < |gaps| - 1 ==> gaps[j] != []) &&
    s == Interleave(gaps, ws)
  }

  lemma RebuildsWithSpace(c: char, t: string, gaps: seq<string>, ws: seq<string>)
    requires IsSpace(c) && RebuildsWith(t, gaps, ws)
    ensures RebuildsWith([c] + t, [[c] + gaps[0]] + gaps[1..], ws)
  {
    var g := [[c] + gaps[0]] + gaps[1..];
    assert Blank([c] + gaps[0]);
    forall j | 0 < j < |g| ensures g[j] == gaps[j] { }
    InterleaveCons(c, gaps, ws);
  }

  lemma RebuildsWithWord(w: string, t: string, gaps: seq<string>, ws: seq<string>)
    requires w != [] && RebuildsWith(t, gaps, ws) && (ws != [] ==> gaps[0] != [])
    ensures RebuildsWith(w + t, [""] + gaps, [w] + ws)
  {
    var g := [""] + gaps;
    assert g[1..] == gaps && ([w] + ws)[1..] == ws;
    forall j | 0 < j < |g| ensures g[j] == gaps[j - 1] { }
    assert Interleave(g, [w] + ws) == w + t;
  }

  lemma {:induction false} RebuildsWithWords(s: string)
    ensures RebuildsWith(s, Gaps(s), Words(s))
    decreases |s|
  {
    if s == [] {
    } else if IsSpace(s[0]) {
      var t := s[1..];
      RebuildsWithWords(t);
      assert Words(s) == Words(t);
      assert Gaps(s) == [[s[0]] + Gaps(t)[0]] + Gaps(t)[1..];
      RebuildsWithSpace(s[0], t, Gaps(t), Words(t));
      assert s == [s[0]] + t;
    } else {
      var w := Word(s);
      var t := s[|w|..];
      RebuildsWithWords(t);
      assert Words(s) == [w] + Words(t);
      assert Gaps(s) == [""] + Gaps(t);
      assert Words(t) != [] ==> t != [] && IsSpace(t[0]);
      RebuildsWithWord(w, t, Gaps(t), Words(t));
      assert s == w + t;
    }
  }

  /**
   * `s.split()` gives exactly the words of `s`: `s` is its words with
   * whitespace runs between them, the inner runs non-empty, so each word is
   * a maximal run of non-whitespace characters and the words come in order.
   */
  lemma WordsRebuild(s: string)
    ensures |Gaps(s)| == |Words(s)| + 1
    ensures forall j :: 0 <= j < |Gaps(s)| ==> Blank(Gaps(s)[j])
    ensures forall j :: 0 < j < |Gaps(s)| - 1 ==> Gaps(s)[j] != []
    ensures s == Interleave(Gaps(s), Words(s))
  {
    RebuildsWithWords(s);
  }

  /** Words that `Join(ws, " ")` keeps apart: none empty, none holding whitespace. */
  predicate AreWords(ws: seq<string>) {
    forall i :: 0 <= i < |ws| ==> ws[i] != [] && NoSpace(ws[i])
  }

  lemma {:induction false} WordOfPrefix(w: string, t: string)
    requires NoSpace(w)
    requires t == [] || IsSpace(t[0])
    ensures Word(w + t) == w
  {
    if w != [] {
      assert (w + t)[1..] == w[1..] + t;
      WordOfPrefix(w[1..], t);
    }
  }

  /** A word followed by whitespace (or nothing) is the first field. */
  lemma WordsOfWordThen(w: string, t: string)
    requires w != [] && NoSpace(w)
    requires t == [] || IsSpace(t[0])
    ensures Words(w + t) == [w] + Words(t)
  {
    WordOfPrefix(w, t);
    assert (w + t)[|w|..] == t;
  }

  lemma WordsOfSpaceThen(t: string)
    ensures Words(" " + t) == Words(t)
  {
    assert (" " + t)[1..] == t;
  }

  // ---------------------------------------------------------------------------
  // str.join
  // ---------------------------------------------------------------------------

  /** `sep.join(parts)`. */
  function Join(parts: seq<string>, sep: string): string {
    if |parts| == 0 then ""
    else if |parts| == 1 then parts[0]
    else parts[0] + sep + Join(parts[1..], sep)
  }

  lemma {:induction false} JoinSnoc(parts: seq<string>, x: string, sep: string)
    requires parts != []
    ensures Join(parts + [x], sep) == Join(parts, sep) + sep + x
  {
    if |parts| > 1 {
      assert (parts + [x])[1..] == parts[1..] + [x];
      JoinSnoc(parts[1..], x, sep);
    }
  }

  /** Space-joined words split back into the same words. */
  lemma {:induction false} WordsJoin(ws: seq<string>)
    requires AreWords(ws)
    ensures Words(Join(ws, " ")) == ws
  {
    if |ws| == 1 {
      WordsOfWordThen(ws[0], "");
      assert ws[0] + "" == ws[0];
    } else if |ws| > 1 {
      var rest := Join(ws[1..], " ");
      assert Join(ws, " ") == ws[0] + (" " + rest);
      WordsOfWordThen(ws[0], " " + rest);
      WordsOfSpaceThen(rest);
      WordsJoin(ws[1..]);
    }
  }

  /**
   * Text in which every whitespace character is a single space that is
   * neither first, nor last, nor followed by more whitespace.
   */
  predicate SingleSpaced(t: string) {
    forall i :: 0 <= i < |t| && IsSpace(t[i]) ==> t[i] == ' ' && 0 < i < |t| - 1 && !IsSpace(t[i + 1])
  }

  /** Joining words with single spaces never yields a leading, trailing or doubled space. */
  lemma {:induction false} JoinSingleSpaced(ws: seq<string>)
    requires AreWords(ws)
    ensures SingleSpaced(Join(ws, " "))
    ensures ws != [] ==> Join(ws, " ") != [] && !IsSpace(Join(ws, " ")[0])
  {
    if |ws| > 1 {
      JoinSingleSpaced(ws[1..]);
      var w, rest := ws[0], Join(ws[1..], " ");
      var t := Join(ws, " ");
      assert t == w + " " + rest;
      assert forall i :: 0 <= i < |w| ==> t[i] == w[i];
      forall i | 0 <= i < |t| && IsSpace(t[i])
        ensures t[i] == ' ' && 0 < i < |t| - 1 && !IsSpace(t[i + 1])
      {
        if i == |w| {
          assert t[i + 1] == rest[0];
        } else {
          assert t[i] == rest[i - |w| - 1];
          assert t[i + 1] == rest[i - |w|];
        }
      }
    }
  }

  // ---------------------------------------------------------------------------
  // str.lower
  // ---------------------------------------------------------------------------

  /**
   * Lower-cases ASCII capitals, the Latin-1 capitals, and the remaining
   * capitals of the Vietnamese alphabet (Ă Đ Ĩ Ũ Ơ Ư and the pairs
   * U+1EA0..U+1EF9); every other character is returned unchanged.
   */
  function LowerChar(c: char): char {
    var n := c as int;
    if 0x41 <= n <= 0x5A then (n + 32) as char
    else if 0xC0 <= n <= 0xDE && n != 0xD7 then (n + 32) as char
    else if n == 0x102 || n == 0x110 || n == 0x128 || n == 0x168 || n == 0x1A0 || n == 0x1AF then (n + 1) as char
    else if 0x1EA0 <= n <= 0x1EF8 && n % 2 == 0 then (n + 1) as char
    else c
  }

  /** `s.lower()`, one character at a time. */
  function Lower(s: string): string {
    seq(|s|, i requires 0 <= i < |s| => LowerChar(s[i]))
  }

  function LowerAll(ws: seq<string>): seq<string> {
    seq(|ws|, i requires 0 <= i < |ws| => Lower(ws[i]))
  }

  /** Lower-casing neither creates nor removes whitespace, and is idempotent. */
  lemma LowerCharFacts(c: char)
    ensures IsSpace(LowerChar(c)) == IsSpace(c)
    ensures LowerChar(c) == ' ' <==> c == ' '
    ensures LowerChar(LowerChar(c)) == LowerChar(c)
  {
  }

  lemma {:induction false} LowerJoin(ws: seq<string>)
    ensures Lower(Join(ws, " ")) == Join(LowerAll(ws), " ")
  {
    if |ws| > 1 {
      LowerJoin(ws[1..]);
      assert LowerAll(ws)[1..] == LowerAll(ws[1..]);
      var a, b := ws[0] + " ", Join(ws[1..], " ");
      assert Lower(a + b) == Lower(a) + Lower(b);
      assert Lower(ws[0] + " ") == Lower(ws[0]) + " " by {
        LowerCharFacts(' ');
      }
    }
  }

  /** The lower-cased, space-joined transcript of some words. */
  lemma TranscriptFacts(ws: seq<string>)
    requires AreWords(ws)
    ensures var t := Lower(Join(ws, " "));
      SingleSpaced(t) && Lower(t) == t && Words(t) == LowerAll(ws)
  {
    var lws := LowerAll(ws);
    forall i | 0 <= i < |lws| ensures lws[i] != [] && NoSpace(lws[i]) {
      forall j | 0 <= j < |lws[i]| ensures !IsSpace(lws[i][j]) {
        LowerCharFacts(ws[i][j]);
      }
    }
    LowerJoin(ws);
    JoinSingleSpaced(lws);
    WordsJoin(lws);
    var t := Lower(Join(ws, " "));
    forall i | 0 <= i < |t| ensures Lower(t)[i] == t[i] {
      LowerCharFacts(Join(ws, " ")[i]);
    }
  }

  // ---------------------------------------------------------------------------
  // str.replace with one-character arguments
  // ---------------------------------------------------------------------------

  /** `s.replace(from, to)` for single characters. */
  function ReplaceAll(s: string, from: char, to: char): string {
    seq(|s|, i requires 0 <= i < |s| => if s[i] == from then to else s[i])
  }

  // ---------------------------------------------------------------------------
  // str.split(sep) with a one-character separator
  // ---------------------------------------------------------------------------

  /**
   * `s.split(c)`: the pieces between occurrences of `c`, empty pieces
   * included; there is one piece more than there are separators, and
   * joining the pieces with `c` gives `s` back.
   */
  function SplitOn(s: string, c: char): (parts: seq<string>)
    ensures parts != []
  {
    if s == [] then [""]
    else
      var rest := SplitOn(s[1..], c);
      if s[0] == c then [""] + rest else [[s[0]] + rest[0]] + rest[1..]
  }

  /** `s.split(c)` has one piece more than `s` has separators. */
  lemma {:induction false} SplitOnCount(s: string, c: char)
    ensures |SplitOn(s, c)| == multiset(s)[c] + 1
  {
    if s != [] {
      SplitOnCount(s[1..], c);
      assert s == [s[0]] + s[1..];
      assert multiset(s) == multiset{s[0]} + multiset(s[1..]);
    }
  }

  /** No piece of `s.split(c)` holds `c`. */
  lemma {:induction false} SplitOnPieces(s: string, c: char)
    ensures forall i :: 0 <= i < |SplitOn(s, c)| ==> c !in SplitOn(s, c)[i]
  {
    if s != [] {
      SplitOnPieces(s[1..], c);
    }
  }

  /** Joining the pieces of `s.split(c)` with `c` gives `s` back. */
  lemma {:induction false} SplitOnJoinBack(s: string, c: char)
    ensures Join(SplitOn(s, c), [c]) == s
  {
    if s != [] {
      var rest := SplitOn(s[1..], c);
      SplitOnJoinBack(s[1..], c);
      var parts := SplitOn(s, c);
      if s[0] == c {
        assert parts[1..] == rest;
      } else if |rest| > 1 {
        assert parts[1..] == rest[1..];
      }
    }
  }

  /** Without the separator, a string is its own single piece. */
  lemma {:induction false} SplitOnAbsent(s: string, c: char)
    requires c !in s
    ensures SplitOn(s, c) == [s]
  {
    SplitOnCount(s, c);
    SplitOnJoinBack(s, c);
    assert multiset(s)[c] == 0;
  }

  lemma {:induction false} SplitOnCons(a: string, c: char, rest: string)
    requires c !in a
    ensures SplitOn(a + [c] + rest, c) == [a] + SplitOn(rest, c)
  {
    var s := a + [c] + rest;
    if a == [] {
      assert s[1..] == rest;
    } else {
      assert s[1..] == a[1..] + [c] + rest;
      SplitOnCons(a[1..], c, rest);
      assert [a[0]] + a[1..] == a;
    }
  }

  /** Splitting separator-free pieces joined by the separator gives the pieces back. */
  lemma {:induction false} SplitOnJoin(parts: seq<string>, c: char)
    requires parts != []
    requires forall i :: 0 <= i < |parts| ==> c !in parts[i]
    ensures SplitOn(Join(parts, [c]), c) == parts
  {
    if |parts| == 1 {
      SplitOnAbsent(parts[0], c);
    } else {
      SplitOnCons(parts[0], c, Join(parts[1..], [c]));
      SplitOnJoin(parts[1..], c);
    }
  }

  /** The piece before the first separator. */
  lemma {:induction false} SplitOnFirst(a: string, c: char, b: string)
    requires c !in a
    requires b == [] || b[0] == c
    ensures SplitOn(a + b, c)[0] == a
  {
    if b == [] {
      assert a + b == a;
      SplitOnAbsent(a, c);
    } else {
      assert a + b == a + [c] + b[1..];
      SplitOnCons(a, c, b[1..]);
    }
  }

  /** Pieces of a whitespace-free string are whitespace-free. */
  lemma {:induction false} SplitOnNoSpace(s: string, c: char)
    requires NoSpace(s)
    ensures forall i :: 0 <= i < |SplitOn(s, c)| ==> NoSpace(SplitOn(s, c)[i])
  {
    if s != [] {
      SplitOnNoSpace(s[1..], c);
    }
  }

  // ---------------------------------------------------------------------------
  // str.splitlines, on "\n"
  // ---------------------------------------------------------------------------

  /**
   * `t.splitlines()` with "\n" as the only line boundary: the pieces between
   * newlines, where a final newline ends the last line instead of opening
   * an empty one.
   */
  function SplitLines(t: string): (lines: seq<string>)
    ensures forall i :: 0 <= i < |lines| ==> '\n' !in lines[i]
  {
    if t == [] then []
    else
      SplitOnPieces(t, '\n');
      var parts := SplitOn(t, '\n');
      if parts[|parts| - 1] == "" then parts[..|parts| - 1] else parts
  }

  /** Lines joined by "\n" read back as the same lines, unless the last one is empty. */
  lemma SplitLinesJoin(lines: seq<string>)
    requires forall i :: 0 <= i < |lines| ==> '\n' !in lines[i]
    requires lines != [] ==> lines[|lines| - 1] != ""
    ensures SplitLines(Join(lines, "\n")) == lines
  {
    if lines != [] {
      SplitOnJoin(lines, '\n');
      JoinNonEmpty(lines, "\n");
    }
  }

  /** Lines each ended by "\n" read back as the same lines, when there is at least one. */
  lemma SplitLinesJoinTerminated(lines: seq<string>)
    requires lines != []
    requires forall i :: 0 <= i < |lines| ==> '\n' !in lines[i]
    ensures SplitLines(Join(lines, "\n") + "\n") == lines
  {
    JoinSnoc(lines, "", "\n");
    assert Join(lines + [""], "\n") == Join(lines, "\n") + "\n";
    SplitOnJoin(lines + [""], '\n');
    assert (lines + [""])[..|lines|] == lines;
  }

  lemma {:induction false} JoinNonEmpty(parts: seq<string>, sep: string)
    requires parts != [] && parts[|parts| - 1] != ""
    ensures Join(parts, sep) != ""
  {
    if |parts| > 1 {
      JoinNonEmpty(parts[1..], sep);
    }
  }
}
