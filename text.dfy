/** The string built-ins the blog relies on: Python's `str.strip`, `str.lower`,
    `str.replace` and `str.split`, JavaScript's `String.prototype.trim`,
    `split` and `substring`, and the substring test behind `icontains`.
    Strings are sequences of Unicode scalar values. */
module Text {
  import opened Wrappers
  import Seqs

  /** Characters Python's `str.strip()` removes (those for which `str.isspace()` holds). */
  predicate PyIsSpace(c: char)
  {
    c == ' ' || c == '\t' || c == '\n' || c == '\r' || c == '\U{0B}' || c == '\U{0C}'
    || ('\U{1C}' <= c <= '\U{1F}') || c == '\U{85}' || c == '\U{A0}' || c == '\U{1680}'
    || ('\U{2000}' <= c <= '\U{200A}') || c == '\U{2028}' || c == '\U{2029}'
    || c == '\U{202F}' || c == '\U{205F}' || c == '\U{3000}'
  }

  /** Characters JavaScript's `trim()` removes: WhiteSpace and LineTerminator. */
  predicate JsIsSpace(c: char)
  {
    c == ' ' || c == '\t' || c == '\n' || c == '\r' || c == '\U{0B}' || c == '\U{0C}'
    || c == '\U{A0}' || c == '\U{FEFF}' || c == '\U{1680}'
    || ('\U{2000}' <= c <= '\U{200A}') || c == '\U{2028}' || c == '\U{2029}'
    || c == '\U{202F}' || c == '\U{205F}' || c == '\U{3000}'
  }

  /** Number of leading characters of `s` that satisfy `ws`. */
  function LeadingCount(s: string, ws: char -> bool): (n: nat)
    ensures n <= |s|
    ensures forall k :: 0 <= k < n ==> ws(s[k])
    ensures n < |s| ==> !ws(s[n])
  {
    if s == [] || !ws(s[0]) then 0 else 1 + LeadingCount(s[1..], ws)
  }

  /** Start of the run of trailing characters of `s` that satisfy `ws`. */
  function TrailingStart(s: string, ws: char -> bool): (m: nat)
    ensures m <= |s|
    ensures forall k :: m <= k < |s| ==> ws(s[k])
    ensures m > 0 ==> !ws(s[m - 1])
  {
    if s == [] || !ws(s[|s| - 1]) then |s| else TrailingStart(s[..|s| - 1], ws)
  }

  /** `r` is the piece of `s` starting at `i` with only `ws` characters around it. */
  predicate TrimmedAt(s: string, ws: char -> bool, i: int, r: string)
  {
    0 <= i <= |s| - |r| && s[i..i + |r|] == r
    && (forall k :: 0 <= k < i ==> ws(s[k]))
    && (forall k :: i + |r| <= k < |s| ==> ws(s[k]))
  }

  /** `s` without its leading and trailing `ws` characters. */
  function Trim(s: string, ws: char -> bool): (r: string)
    ensures |r| <= |s|
    ensures r == [] <==> forall k :: 0 <= k < |s| ==> ws(s[k])
    ensures r != [] ==> !ws(r[0]) && !ws(r[|r| - 1])
    ensures exists i :: TrimmedAt(s, ws, i, r)
  {
    var i := LeadingCount(s, ws);
    var rest := s[i..];
    TrimmedPieceAt(s, ws);
    TrimmedPieceEnds(s, ws);
    rest[..TrailingStart(rest, ws)]
  }

  /** The piece between the leading and the trailing run is trimmed. */
  lemma TrimmedPieceAt(s: string, ws: char -> bool)
    ensures var i := LeadingCount(s, ws);
      TrimmedAt(s, ws, i, s[i..][..TrailingStart(s[i..], ws)])
  {
    var i := LeadingCount(s, ws);
    var rest := s[i..];
    var j := TrailingStart(rest, ws);
    assert s[i..i + j] == rest[..j];
    TrailingRun(s, i, ws);
  }

  /** That piece is empty exactly when `s` is all `ws`, and otherwise neither
      begins nor ends with a `ws` character. */
  lemma TrimmedPieceEnds(s: string, ws: char -> bool)
    ensures var i := LeadingCount(s, ws);
      var r := s[i..][..TrailingStart(s[i..], ws)];
      && (r == [] <==> forall k :: 0 <= k < |s| ==> ws(s[k]))
      && (r != [] ==> !ws(r[0]) && !ws(r[|r| - 1]))
  {
    var i := LeadingCount(s, ws);
    var rest := s[i..];
    var j := TrailingStart(rest, ws);
    TrailingRun(s, i, ws);
    if j > 0 {
      assert rest[..j][0] == s[i] && rest[..j][j - 1] == rest[j - 1];
    }
  }

  /** The trailing run of a suffix sits at the end of the whole string. */
  lemma TrailingRun(s: string, i: nat, ws: char -> bool)
    requires i <= |s|
    ensures forall k :: i + TrailingStart(s[i..], ws) <= k < |s| ==> ws(s[k])
  {
    var rest := s[i..];
    var j := TrailingStart(rest, ws);
    forall k | i + j <= k < |s| ensures ws(s[k]) {
      assert s[k] == rest[k - i];
    }
  }

  /** Trimming a string that neither begins nor ends with a `ws` character
      changes nothing. */
  lemma TrimUnpadded(s: string, ws: char -> bool)
    requires s == [] || (!ws(s[0]) && !ws(s[|s| - 1]))
    ensures Trim(s, ws) == s
  {
    assert LeadingCount(s, ws) == 0;
    assert s[0..] == s;
  }

  /** A leading `ws` character is trimmed away. */
  lemma TrimDropsLeading(s: string, ws: char -> bool)
    requires s != [] && ws(s[0])
    ensures Trim(s, ws) == Trim(s[1..], ws)
  {
    var n := LeadingCount(s[1..], ws);
    assert LeadingCount(s, ws) == 1 + n;
    assert s[1 + n..] == s[1..][n..];
  }

  /** Any run of `ws` characters in front is trimmed away. */
  lemma {:induction false} TrimPadded(pad: string, t: string, ws: char -> bool)
    requires forall k :: 0 <= k < |pad| ==> ws(pad[k])
    ensures Trim(pad + t, ws) == Trim(t, ws)
    decreases |pad|
  {
    if pad == [] {
      assert pad + t == t;
    } else {
      TrimDropsLeading(pad + t, ws);
      assert (pad + t)[1..] == pad[1..] + t;
      TrimPadded(pad[1..], t, ws);
    }
  }

  /** Trimming twice is trimming once. */
  lemma TrimIdempotent(s: string, ws: char -> bool)
    ensures Trim(Trim(s, ws), ws) == Trim(s, ws)
  {
    TrimUnpadded(Trim(s, ws), ws);
  }

  /** Python's `str.strip()`. */
  function PyStrip(s: string): string { Trim(s, PyIsSpace) }

  /** JavaScript's `trim()`. */
  function JsTrim(s: string): string { Trim(s, JsIsSpace) }

  /** Lower-casing of one character; only the ASCII letters are mapped. */
  function LowerChar(c: char): (r: char)
    ensures 'A' <= c <= 'Z' ==> 'a' <= r <= 'z' && r as int == c as int + 32
    ensures !('A' <= c <= 'Z') ==> r == c
  {
    if 'A' <= c <= 'Z' then (c as int - 'A' as int + 'a' as int) as char else c
  }

  /** `str.lower()`, character by character. */
  function Lower(s: string): (r: string)
    ensures |r| == |s|
    ensures forall i :: 0 <= i < |s| ==> r[i] == LowerChar(s[i])
  {
    seq(|s|, i requires 0 <= i < |s| => LowerChar(s[i]))
  }

  /** `str.replace(from, to)` for one-character `from` and `to`. */
  function ReplaceChar(s: string, from: char, to: char): (r: string)
    ensures |r| == |s|
    ensures forall i :: 0 <= i < |s| ==> r[i] == if s[i] == from then to else s[i]
  {
    seq(|s|, i requires 0 <= i < |s| => if s[i] == from then to else s[i])
  }

  /** `s` begins with `prefix`. */
  predicate StartsWith(s: string, prefix: string)
  {
    |prefix| <= |s| && s[..|prefix|] == prefix
  }

  /** JavaScript's `s.substring(start, end)` for non-negative arguments: both
      are clamped to the length and swapped when out of order. */
  function JsSubstring(s: string, start: nat, end: nat): (r: string)
    ensures |r| <= |s|
  {
    var a := if start < |s| then start else |s|;
    var b := if end < |s| then end else |s|;
    if a <= b then s[a..b] else s[b..a]
  }

  /** JavaScript's `s.substring(start)`. */
  function JsSubstringFrom(s: string, start: nat): string
  {
    if start < |s| then s[start..] else []
  }

  /** The literal prefix test `s.substring(0, |p|) === p` is exactly "s starts with p". */
  lemma SubstringPrefix(s: string, p: string)
    ensures JsSubstring(s, 0, |p|) == p <==> StartsWith(s, p)
  {
    if |p| > |s| {
      assert |JsSubstring(s, 0, |p|)| == |s| < |p|;
    }
  }

  /** `needle` occurs in `hay` at position `i`. */
  predicate OccursAt(hay: string, needle: string, i: int)
  {
    0 <= i <= |hay| - |needle| && hay[i..i + |needle|] == needle
  }

  /** `needle` occurs as a contiguous piece of `hay` (SQL `LIKE '%needle%'`). */
  function Contains(hay: string, needle: string): (b: bool)
    ensures b <==> exists i :: OccursAt(hay, needle, i)
    decreases |hay|
  {
    if StartsWith(hay, needle) then
      assert OccursAt(hay, needle, 0);
      true
    else if hay == [] then
      false
    else
      var b := Contains(hay[1..], needle);
      forall i | 1 <= i <= |hay| - |needle|
        ensures OccursAt(hay, needle, i) <==> OccursAt(hay[1..], needle, i - 1)
      {
        var tail := hay[1..];
        assert forall k :: i <= k < i + |needle| ==> hay[k] == tail[k - 1];
        assert hay[i..i + |needle|] == tail[i - 1..i - 1 + |needle|];
      }
      assert b ==> exists i :: OccursAt(hay, needle, i) by {
        if b {
          var i :| OccursAt(hay[1..], needle, i);
          assert OccursAt(hay, needle, i + 1);
        }
      }
      b
  }

  /** Django's `icontains`: a substring test after lower-casing both sides. */
  function ContainsIgnoreCase(hay: string, needle: string): bool
  {
    Contains(Lower(hay), Lower(needle))
  }

  /** The first position of `sep` in `s`, if any. */
  function IndexOfChar(s: string, sep: char): (r: Option<nat>)
    ensures r.Some? ==> r.value < |s| && s[r.value] == sep && sep !in s[..r.value]
    ensures r.None? <==> sep !in s
  {
    var r := Seqs.IndexOf(s, c => c == sep);
    assert r.Some? ==> forall j :: 0 <= j < r.value ==> s[..r.value][j] == s[j];
    r
  }

  /** Python's `s.split(sep)` and JavaScript's `s.split(sep)` for a one-character
      separator: the pieces between occurrences of `sep`, empty ones included. */
  function Split(s: string, sep: char): (parts: seq<string>)
    ensures |parts| >= 1
    ensures forall k :: 0 <= k < |parts| ==> sep !in parts[k]
    decreases |s|
  {
    match IndexOfChar(s, sep)
    case None => [s]
    case Some(i) => [s[..i]] + Split(s[i + 1..], sep)
  }

  /** The pieces glued back together with `sep` between neighbours. */
  function Join(parts: seq<string>, sep: char): string
    requires |parts| >= 1
  {
    if |parts| == 1 then parts[0] else parts[0] + [sep] + Join(parts[1..], sep)
  }

  /** Splitting loses nothing: joining the pieces gives back the input. */
  lemma {:induction false} JoinSplit(s: string, sep: char)
    ensures Join(Split(s, sep), sep) == s
    decreases |s|
  {
    match IndexOfChar(s, sep)
    case None =>
    case Some(i) =>
      JoinSplit(s[i + 1..], sep);
      var parts := Split(s, sep);
      assert parts[1..] == Split(s[i + 1..], sep);
      assert s == s[..i] + [sep] + s[i + 1..];
  }

  /** The last piece of a split: what follows the last separator. */
  function LastPiece(s: string, sep: char): string
  {
    var parts := Split(s, sep);
    parts[|parts| - 1]
  }

  /** The first piece of a split: what precedes the first separator. */
  function FirstPiece(s: string, sep: char): string
  {
    Split(s, sep)[0]
  }

  /** `last` is a suffix of `s` preceded by `sep`, or all of `s` when `s` has
      no `sep`. */
  predicate SuffixAfterSep(s: string, sep: char, last: string)
  {
    && |last| <= |s|
    && s[|s| - |last|..] == last
    && (|last| < |s| ==> s[|s| - |last| - 1] == sep)
    && (|last| == |s| ==> sep !in s)
  }

  /** The last piece of a split is a separator-free suffix preceded by the
      separator, or the whole string when there is no separator. */
  lemma LastPieceIsSuffix(s: string, sep: char)
    ensures |LastPiece(s, sep)| <= |s|
    ensures s[|s| - |LastPiece(s, sep)|..] == LastPiece(s, sep)
    ensures |LastPiece(s, sep)| < |s| ==> s[|s| - |LastPiece(s, sep)| - 1] == sep
    ensures |LastPiece(s, sep)| == |s| ==> sep !in s
  {
    LastPieceSuffix(s, sep);
  }

  lemma {:induction false} LastPieceSuffix(s: string, sep: char)
    ensures SuffixAfterSep(s, sep, LastPiece(s, sep))
    decreases |s|
  {
    match IndexOfChar(s, sep)
    case None =>
      LastPieceWhole(s, sep);
    case Some(i) =>
      LastPieceSuffix(s[i + 1..], sep);
      LastPieceAfterFirst(s, sep, i);
      SuffixAfterSepExtends(s, sep, i, LastPiece(s[i + 1..], sep));
  }

  /** Without a separator the last piece is the whole string. */
  lemma LastPieceWhole(s: string, sep: char)
    requires IndexOfChar(s, sep).None?
    ensures LastPiece(s, sep) == s && SuffixAfterSep(s, sep, s)
  {
    assert Split(s, sep) == [s];
    assert s[0..] == s;
  }

  /** A suffix after a separator in what follows position `i` is one in the whole. */
  lemma SuffixAfterSepExtends(s: string, sep: char, i: nat, last: string)
    requires i < |s| && s[i] == sep && SuffixAfterSep(s[i + 1..], sep, last)
    ensures SuffixAfterSep(s, sep, last)
  {
    var rest := s[i + 1..];
    SuffixOfRest(s, i, last);
    if |last| == |rest| {
      assert s[|s| - |last| - 1] == s[i];
    } else {
      assert s[|s| - |last| - 1] == rest[|rest| - |last| - 1];
    }
  }

  /** The last piece is the last piece of what follows the first separator. */
  lemma LastPieceAfterFirst(s: string, sep: char, i: nat)
    requires IndexOfChar(s, sep) == Some(i)
    ensures LastPiece(s, sep) == LastPiece(s[i + 1..], sep)
  {
    var parts, tail := Split(s, sep), Split(s[i + 1..], sep);
    assert parts == [s[..i]] + tail;
    assert parts[|parts| - 1] == tail[|tail| - 1];
  }

  /** A suffix of what follows position `i` is a suffix of the whole. */
  lemma SuffixOfRest(s: string, i: nat, last: string)
    requires i < |s| && |last| <= |s| - i - 1
    requires s[i + 1..][|s| - i - 1 - |last|..] == last
    ensures s[|s| - |last|..] == last
  {
    assert s[i + 1..][|s| - i - 1 - |last|..] == s[|s| - |last|..];
  }

  /** The first piece of a split is a separator-free prefix followed by the
      separator, or the whole string when there is no separator. */
  lemma FirstPieceIsPrefix(s: string, sep: char)
    ensures |FirstPiece(s, sep)| <= |s| && s[..|FirstPiece(s, sep)|] == FirstPiece(s, sep)
    ensures |FirstPiece(s, sep)| < |s| ==> s[|FirstPiece(s, sep)|] == sep
    ensures |FirstPiece(s, sep)| == |s| ==> sep !in s
  {
  }
}
