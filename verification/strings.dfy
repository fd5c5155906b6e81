/** The `java.lang.String` operations the routing engine relies on, over
    `seq<char>`: prefix, suffix and substring tests, `trim`, the splits used
    to cut a command token and a callback key, and ASCII `equalsIgnoreCase`. */
module Strings {

  /** `s.startsWith(p)`. */
  predicate IsPrefix(p: string, s: string) {
    |p| <= |s| && s[..|p|] == p
  }

  /** `s.endsWith(p)`. */
  predicate IsSuffix(p: string, s: string) {
    |p| <= |s| && s[|s| - |p|..] == p
  }

  /** A character outside the Basic Multilingual Plane, which Java stores as
      a surrogate pair of two `char`s. */
  predicate IsSupplementary(c: char) {
    c as int >= 0x1_0000
  }

  /** The UTF-16 encoding of `s`: one code unit per character of the Basic
      Multilingual Plane, a high and a low surrogate for any other. */
  function Utf16(s: string): (r: seq<int>)
    ensures forall k :: 0 <= k < |r| ==> 0 <= r[k] < 0x1_0000
  {
    if s == [] then []
    else
      var c := s[0] as int;
      var head := if c >= 0x1_0000 then [0xD800 + (c - 0x1_0000) / 0x400, 0xDC00 + (c - 0x1_0000) % 0x400] else [c];
      head + Utf16(s[1..])
  }

  /** `s.length()`: the number of UTF-16 code units, so a character outside
      the Basic Multilingual Plane counts twice. */
  function JavaLength(s: string): (r: nat)
    ensures r == |Utf16(s)|
    ensures |s| <= r <= 2 * |s|
    ensures r == 0 <==> s == []
    ensures (forall k :: 0 <= k < |s| ==> !IsSupplementary(s[k])) ==> r == |s|
  {
    if s == [] then 0
    else
      assert forall k :: 1 <= k < |s| ==> s[1..][k - 1] == s[k];
      (if IsSupplementary(s[0]) then 2 else 1) + JavaLength(s[1..])
  }

  /** `p` occurs in `s` starting at index `i`. */
  ghost predicate OccursAt(p: string, s: string, i: int) {
    0 <= i && i + |p| <= |s| && s[i..i + |p|] == p
  }

  /** `s.contains(p)`, computed by trying every start position in turn. */
  function Contains(s: string, p: string): (r: bool)
    ensures r <==> exists i :: OccursAt(p, s, i)
    decreases |s|
  {
    if IsPrefix(p, s) then
      assert OccursAt(p, s, 0);
      true
    else if s == [] then
      false
    else
      var r := Contains(s[1..], p);
      OccursInTail(p, s);
      r
  }

  /** An occurrence in `s` that is not at index 0 is an occurrence in `s[1..]`. */
  lemma OccursInTail(p: string, s: string)
    requires s != [] && !IsPrefix(p, s)
    ensures (exists i :: OccursAt(p, s, i)) <==> (exists i :: OccursAt(p, s[1..], i))
  {
    if i :| OccursAt(p, s, i) {
      assert i != 0;
      assert s[1..][i - 1..i - 1 + |p|] == s[i..i + |p|];
      assert OccursAt(p, s[1..], i - 1);
    }
    if i :| OccursAt(p, s[1..], i) {
      assert s[i + 1..i + 1 + |p|] == s[1..][i..i + |p|];
      assert OccursAt(p, s, i + 1);
    }
  }

  /** The characters `String.trim` strips: every code point up to U+0020. */
  predicate IsTrimSpace(c: char) {
    c as int <= 0x20
  }

  /** The characters of the regular expression class `\s`:
      space, tab, line feed, vertical tab, form feed, carriage return. */
  predicate IsRegexSpace(c: char) {
    c == ' ' || 9 <= c as int <= 13
  }

  /** The number of leading trim-space characters of `s`. */
  function LeadCount(s: string): (n: nat)
    ensures n <= |s|
    ensures forall k :: 0 <= k < n ==> IsTrimSpace(s[k])
    ensures n < |s| ==> !IsTrimSpace(s[n])
  {
    if s != [] && IsTrimSpace(s[0]) then 1 + LeadCount(s[1..]) else 0
  }

  /** The index just past the last character of `s` that is not trim space
      (0 when there is none). */
  function TrailEnd(s: string): (e: nat)
    ensures e <= |s|
    ensures forall k :: e <= k < |s| ==> IsTrimSpace(s[k])
    ensures e > 0 ==> !IsTrimSpace(s[e - 1])
  {
    if s != [] && IsTrimSpace(s[|s| - 1]) then TrailEnd(s[..|s| - 1]) else |s|
  }

  /** `r` is `s` with `i` characters cut off the front and the rest of the
      tail cut off the back, and every character cut off is trim space. */
  ghost predicate TrimmedAt(s: string, r: string, i: int) {
    && 0 <= i && i + |r| <= |s| && r == s[i..i + |r|]
    && (forall k :: 0 <= k < i ==> IsTrimSpace(s[k]))
    && (forall k :: i + |r| <= k < |s| ==> IsTrimSpace(s[k]))
  }

  /** `s.trim()`: the infix of `s` left after cutting off the leading and the
      trailing trim-space characters; it neither starts nor ends with one. */
  function Trim(s: string): (r: string)
    ensures r == [] || (!IsTrimSpace(r[0]) && !IsTrimSpace(r[|r| - 1]))
    ensures TrimmedAt(s, r, LeadCount(s))
  {
    var st := LeadCount(s);
    var e := TrailEnd(s);
    if st < e then s[st..e]
    else
      assert st == |s|;
      []
  }

  /** Every character of `s` is trim space. */
  ghost predicate AllTrimSpace(s: string) {
    forall k :: 0 <= k < |s| ==> IsTrimSpace(s[k])
  }

  /** No character of `s` is trim space (so none is `\s` either). */
  ghost predicate NoTrimSpace(s: string) {
    forall k :: 0 <= k < |s| ==> !IsTrimSpace(s[k])
  }

  /** Text without trim space is its own trim. */
  lemma TrimUnchanged(s: string)
    requires NoTrimSpace(s)
    ensures Trim(s) == s
  {
    if s != [] {
      assert !IsTrimSpace(s[|s| - 1]);
    }
  }

  /** Index of the first `d` in `s`, or `|s|` when there is none. */
  function IndexOf(s: string, d: char): (r: nat)
    ensures r <= |s|
    ensures forall k :: 0 <= k < r ==> s[k] != d
    ensures r < |s| <==> d in s
    ensures r < |s| ==> s[r] == d
  {
    if s == [] then 0
    else if s[0] == d then 0
    else 1 + IndexOf(s[1..], d)
  }

  /** The part of `s` before its first `d` (all of `s` when there is none). */
  function Before(s: string, d: char): (r: string)
    ensures IsPrefix(r, s) && d !in r
    ensures |r| < |s| ==> s[|r|] == d
  {
    s[..IndexOf(s, d)]
  }

  /** Index of the first `\s` character of `s`, or `|s|` when there is none. */
  function SpaceIndex(s: string): (r: nat)
    ensures r <= |s|
    ensures forall k :: 0 <= k < r ==> !IsRegexSpace(s[k])
    ensures r < |s| ==> IsRegexSpace(s[r])
  {
    if s == [] then 0
    else if IsRegexSpace(s[0]) then 0
    else 1 + SpaceIndex(s[1..])
  }

  /** Every piece of `s` between occurrences of `d`, empty pieces included:
      what `split` computes before it discards trailing empty strings. */
  function Pieces(s: string, d: char): (r: seq<string>)
    ensures |r| >= 1
    decreases |s|
  {
    var i := IndexOf(s, d);
    if i == |s| then [s] else [s[..i]] + Pieces(s[i + 1..], d)
  }

  /** `ps` without its trailing empty strings. */
  function DropTrailingEmpty(ps: seq<string>): (r: seq<string>)
    ensures |r| <= |ps| && r == ps[..|r|]
    ensures r == [] || r[|r| - 1] != []
    ensures forall k :: |r| <= k < |ps| ==> ps[k] == []
  {
    if ps != [] && ps[|ps| - 1] == [] then DropTrailingEmpty(ps[..|ps| - 1]) else ps
  }

  /** `s.split(d)` for a one-character, non-metacharacter delimiter, as Java
      computes it: the whole string when `d` does not occur, otherwise the
      pieces between the delimiters with trailing empty strings removed. */
  function Split(s: string, d: char): seq<string> {
    if d !in s then [s] else DropTrailingEmpty(Pieces(s, d))
  }

  /** The first piece is the text before the first delimiter. */
  lemma {:induction false} PiecesHead(s: string, d: char)
    ensures Pieces(s, d)[0] == Before(s, d)
  {
  }

  /** Every character of `s` is `d`. */
  ghost predicate AllDelimiters(s: string, d: char) {
    forall k :: 0 <= k < |s| ==> s[k] == d
  }

  /** Every string in `ps` is empty. */
  ghost predicate AllEmpty(ps: seq<string>) {
    forall k :: 0 <= k < |ps| ==> ps[k] == []
  }

  /** Every piece is empty exactly when `s` consists of delimiters only. */
  lemma {:induction false} PiecesAllEmpty(s: string, d: char)
    ensures AllEmpty(Pieces(s, d)) <==> AllDelimiters(s, d)
    decreases |s|
  {
    var ps := Pieces(s, d);
    var i := IndexOf(s, d);
    if i < |s| {
      var rest := s[i + 1..];
      PiecesAllEmpty(rest, d);
      var tail := Pieces(rest, d);
      assert ps == [s[..i]] + tail;
      assert AllEmpty(ps) <==> s[..i] == [] && AllEmpty(tail) by {
        assert ps[0] == s[..i];
        assert forall k :: 0 <= k < |tail| ==> tail[k] == ps[k + 1];
        if AllEmpty(ps) {
          assert ps[0] == [];
          forall k | 0 <= k < |tail|
            ensures tail[k] == []
          {
            assert tail[k] == ps[k + 1];
          }
        }
        if s[..i] == [] && AllEmpty(tail) {
          forall k | 0 <= k < |ps|
            ensures ps[k] == []
          {
            if k > 0 {
              assert ps[k] == tail[k - 1];
            }
          }
        }
      }
      if i == 0 {
        assert AllDelimiters(s, d) <==> AllDelimiters(rest, d) by {
          assert forall k :: 0 <= k < |rest| ==> rest[k] == s[k + 1];
        }
      } else {
        assert s[0] != d && s[..i] != [];
      }
    } else {
      assert ps == [s] && d !in s;
      if s != [] {
        assert s[0] in s && s[0] != d;
        assert ps[0] != [];
      }
    }
  }

  /** Java's `split` returns an empty array exactly when the string is made of
      delimiters only and holds at least one of them. */
  lemma SplitEmptyIff(s: string, d: char)
    ensures Split(s, d) == [] <==> (d in s && AllDelimiters(s, d))
  {
    if d in s {
      var ps := Pieces(s, d);
      PiecesAllEmpty(s, d);
      var r := DropTrailingEmpty(ps);
      if r == [] {
        assert AllEmpty(ps);
      } else {
        assert r[|r| - 1] == ps[|r| - 1] != [];
      }
    }
  }

  /** When `split` returns something, its first element is the text before the
      first delimiter. */
  lemma SplitHead(s: string, d: char)
    requires Split(s, d) != []
    ensures Split(s, d)[0] == Before(s, d)
  {
    if d in s {
      PiecesHead(s, d);
    }
  }

  /** ASCII lower-casing; other characters are left alone. */
  function ToLowerAscii(c: char): char {
    if 'A' <= c <= 'Z' then (c as int + 32) as char else c
  }

  /** `a.equalsIgnoreCase(b)` restricted to ASCII case folding. */
  predicate EqualsIgnoreCase(a: string, b: string) {
    |a| == |b| && forall k :: 0 <= k < |a| ==> ToLowerAscii(a[k]) == ToLowerAscii(b[k])
  }
}
