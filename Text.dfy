/**
 * The string operations the page script uses, restated over `seq<char>`:
 * `toLowerCase` (ASCII letters only), `trim` (the ECMAScript whitespace and
 * line-terminator characters), `includes`, `replace` with a one-character
 * string pattern (first occurrence only) and `Array.prototype.join`.
 * `Split` is not used by the script; it is the inverse of `Join` that the
 * detail decoder is built from.
 */
module Text {

  function Min(a: int, b: int): int {
    if a <= b then a else b
  }

  /** `toLowerCase` on one character, for the ASCII letters. */
  function LowerChar(c: char): char {
    if 'A' <= c <= 'Z' then (c as int - 'A' as int + 'a' as int) as char else c
  }

  function ToLower(s: string): string {
    seq(|s|, i requires 0 <= i < |s| => LowerChar(s[i]))
  }

  /**
   * The `length` of a JavaScript string: UTF-16 code units, two for each
   * character above U+FFFF (a surrogate pair), one for every other.
   */
  function Utf16Length(s: string): (n: nat)
    ensures |s| <= n <= 2 * |s|
    ensures n == |s| <==> forall i :: 0 <= i < |s| ==> s[i] < '\U{10000}'
  {
    if s == [] then 0
    else
      var rest := Utf16Length(s[1..]);
      assert forall i :: 1 <= i < |s| ==> s[i] == s[1..][i - 1];
      (if s[0] < '\U{10000}' then 1 else 2) + rest
  }

  /** A character above U+FFFF counts twice: one emoji and one letter make a `length` of 3. */
  lemma Utf16LengthAstral()
    ensures Utf16Length("\U{1F600}a") == 3
  {
    assert "\U{1F600}a"[1..] == "a";
    assert "a"[1..] == [];
  }

  /** WhiteSpace and LineTerminator code points of ECMAScript, which `trim` strips. */
  predicate IsSpace(c: char) {
    c == '\t' || c == '\n' || c == '\U{000B}' || c == '\U{000C}' || c == '\r' || c == ' '
    || c == '\U{00A0}' || c == '\U{1680}' || ('\U{2000}' <= c <= '\U{200A}')
    || c == '\U{2028}' || c == '\U{2029}' || c == '\U{202F}' || c == '\U{205F}'
    || c == '\U{3000}' || c == '\U{FEFF}'
  }

  /** Number of whitespace characters at the start of `s`. */
  function LeadingSpaces(s: string): (n: nat)
    ensures n <= |s|
    ensures forall i :: 0 <= i < n ==> IsSpace(s[i])
    ensures n < |s| ==> !IsSpace(s[n])
  {
    if |s| > 0 && IsSpace(s[0]) then 1 + LeadingSpaces(s[1..]) else 0
  }

  /** Number of whitespace characters at the end of `s`. */
  function TrailingSpaces(s: string): (n: nat)
    ensures n <= |s|
    ensures forall i :: |s| - n <= i < |s| ==> IsSpace(s[i])
    ensures n < |s| ==> !IsSpace(s[|s| - 1 - n])
  {
    if |s| > 0 && IsSpace(s[|s| - 1]) then 1 + TrailingSpaces(s[..|s| - 1]) else 0
  }

  /**
   * `String.prototype.trim`: the longest slice of `s` that neither starts nor
   * ends with whitespace; everything cut off on either side is whitespace.
   */
  function Trim(s: string): (r: string)
    ensures r == [] <==> forall i :: 0 <= i < |s| ==> IsSpace(s[i])
    ensures r != [] ==> !IsSpace(r[0]) && !IsSpace(r[|r| - 1])
    ensures exists a :: SliceWithin(s, r, a)
  {
    var a := LeadingSpaces(s);
    var t := s[a..];
    var r := t[..|t| - TrailingSpaces(t)];
    assert forall i :: a + |r| <= i < |s| ==> s[i] == t[i - a];
    assert SliceWithin(s, r, a);
    r
  }

  /** `r` is the slice of `s` at offset `a`, and the rest of `s` is whitespace. */
  predicate SliceWithin(s: string, r: string, a: nat) {
    && a + |r| <= |s|
    && r == s[a..a + |r|]
    && (forall i :: 0 <= i < a ==> IsSpace(s[i]))
    && (forall i :: a + |r| <= i < |s| ==> IsSpace(s[i]))
  }

  predicate StartsWith(s: string, prefix: string) {
    |prefix| <= |s| && s[..|prefix|] == prefix
  }

  /** `String.prototype.includes`, scanning the start positions left to right. */
  predicate Contains(s: string, q: string)
    decreases |s|
  {
    StartsWith(s, q) || (|s| > 0 && Contains(s[1..], q))
  }

  /** `q` occurs in `s` starting at position `i`. */
  predicate OccursAt(s: string, q: string, i: int) {
    0 <= i <= |s| - |q| && s[i..i + |q|] == q
  }

  /** A match found by the scan is an occurrence. */
  lemma {:induction false} ContainsOccurs(s: string, q: string)
    requires Contains(s, q)
    ensures exists i :: OccursAt(s, q, i)
    decreases |s|
  {
    if StartsWith(s, q) {
      assert OccursAt(s, q, 0);
    } else {
      ContainsOccurs(s[1..], q);
      var i :| OccursAt(s[1..], q, i);
      assert s[i + 1..i + 1 + |q|] == s[1..][i..i + |q|];
      assert OccursAt(s, q, i + 1);
    }
  }

  /** The scan finds every occurrence. */
  lemma {:induction false} OccursContains(s: string, q: string, i: int)
    requires OccursAt(s, q, i)
    ensures Contains(s, q)
    decreases i
  {
    if i == 0 {
      assert StartsWith(s, q);
    } else {
      assert s[1..][i - 1..i - 1 + |q|] == s[i..i + |q|];
      OccursContains(s[1..], q, i - 1);
    }
  }

  /** `Contains` holds exactly when `q` occurs as a contiguous slice of `s`. */
  lemma ContainsIffOccurs(s: string, q: string)
    ensures Contains(s, q) <==> exists i :: OccursAt(s, q, i)
  {
    if Contains(s, q) {
      ContainsOccurs(s, q);
    }
    forall i | OccursAt(s, q, i) ensures Contains(s, q) {
      OccursContains(s, q, i);
    }
  }

  /** Index of the first `c` in `s`, or `|s|` when there is none. */
  function FirstIndex(s: string, c: char): (k: nat)
    ensures k <= |s|
    ensures forall i :: 0 <= i < k ==> s[i] != c
    ensures k < |s| ==> s[k] == c
  {
    if |s| == 0 || s[0] == c then 0 else 1 + FirstIndex(s[1..], c)
  }

  /**
   * `s.replace(from, to)` with one-character string arguments: only the first
   * occurrence of `from` is replaced; every other position, including later
   * occurrences of `from`, is kept.
   */
  function ReplaceFirst(s: string, from: char, to: char): (r: string)
    ensures |r| == |s|
    ensures forall i :: 0 <= i < |s| ==> r[i] == if i == FirstIndex(s, from) then to else s[i]
  {
    var k := FirstIndex(s, from);
    if k == |s| then s else s[..k] + [to] + s[k + 1..]
  }

  /** The component name that shows JavaScript's first-only replacement. */
  lemma ReplaceFirstFlyAsh()
    ensures ReplaceFirst("fly_ash_siliceous", '_', ' ') == "fly ash_siliceous"
  {
    var s := "fly_ash_siliceous";
    assert s[1..][1..][1..][0] == '_';
    assert FirstIndex(s, '_') == 3;
    assert s[..3] + [' '] + s[4..] == "fly ash_siliceous";
  }

  /** A character of the result is a character of the input or the replacement. */
  lemma ReplaceFirstChars(s: string, from: char, to: char, c: char)
    requires c in ReplaceFirst(s, from, to) && c != to
    ensures c in s
  {
    var r := ReplaceFirst(s, from, to);
    var i :| 0 <= i < |r| && r[i] == c;
    assert s[i] == c;
  }

  /**
   * When `to` does not occur in `s`, replacing the first `to` back by `from`
   * undoes the replacement, so the rendering of a name is invertible.
   */
  lemma ReplaceFirstUndo(s: string, from: char, to: char)
    requires to !in s
    ensures ReplaceFirst(ReplaceFirst(s, from, to), to, from) == s
  {
    var r := ReplaceFirst(s, from, to);
    var k := FirstIndex(s, from);
    if k < |s| {
      assert FirstIndex(r, to) == k;
    } else {
      assert r == s;
      assert FirstIndex(r, to) == |r|;
    }
  }

  /** `Array.prototype.join(sep)` over strings. */
  function Join(parts: seq<string>, sep: string): string {
    if |parts| == 0 then ""
    else if |parts| == 1 then parts[0]
    else parts[0] + sep + Join(parts[1..], sep)
  }

  /**
   * Cuts `s` at every occurrence of the first character of `sep`, dropping
   * `|sep|` characters there. On strings built by `Join` from parts free of
   * that character this is the exact inverse (see `SplitJoin`).
   */
  function Split(s: string, sep: string): seq<string>
    requires sep != []
    decreases |s|
  {
    var k := FirstIndex(s, sep[0]);
    if k == |s| then [s] else [s[..k]] + Split(s[Min(k + |sep|, |s|)..], sep)
  }

  /** Joined text is at least as long as its first part. */
  lemma {:induction false} JoinHasFirst(parts: seq<string>, sep: string)
    requires |parts| >= 1
    ensures |Join(parts, sep)| >= |parts[0]|
  {
  }

  /** Splitting what was joined gives back the parts. */
  lemma {:induction false} SplitJoin(parts: seq<string>, sep: string)
    requires sep != [] && |parts| >= 1
    requires forall p :: p in parts ==> sep[0] !in p
    ensures Split(Join(parts, sep), sep) == parts
  {
    var p := parts[0];
    assert p in parts;
    if |parts| == 1 {
      assert FirstIndex(p, sep[0]) == |p|;
    } else {
      var rest := Join(parts[1..], sep);
      var s := p + sep + rest;
      assert s == Join(parts, sep);
      var k := FirstIndex(s, sep[0]);
      assert s[|p|] == sep[0];
      assert k == |p|;
      assert s[..k] == p;
      assert s[Min(k + |sep|, |s|)..] == rest;
      forall q | q in parts[1..] ensures sep[0] !in q {
        assert q in parts;
      }
      SplitJoin(parts[1..], sep);
      assert Split(s, sep) == [p] + Split(rest, sep);
      assert parts == [p] + parts[1..];
    }
  }
}
