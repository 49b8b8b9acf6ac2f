/** The .NET string primitives the helpers and controllers are built from. */
module Text {
  import opened Base

  /** `char.IsWhiteSpace`: the Unicode separators and the control characters U+0009-U+000D, U+0085. */
  predicate IsWhiteSpace(c: char) {
    c == ' ' || ('\t' <= c <= '\r') || c == '\U{0085}' || c == '\U{00A0}' || c == '\U{1680}'
    || ('\U{2000}' <= c <= '\U{200A}') || c == '\U{2028}' || c == '\U{2029}' || c == '\U{202F}'
    || c == '\U{205F}' || c == '\U{3000}'
  }

  /** Drops the leading characters for which `drop` holds (`TrimStart`). */
  function TrimStartBy(s: string, drop: char -> bool): (r: string)
    ensures |r| <= |s| && r == s[|s| - |r|..]
    ensures r == [] || !drop(r[0])
    ensures forall k :: 0 <= k < |s| - |r| ==> drop(s[k])
  {
    if s != [] && drop(s[0]) then TrimStartBy(s[1..], drop) else s
  }

  /** Drops the trailing characters for which `drop` holds (`TrimEnd`). */
  function TrimEndBy(s: string, drop: char -> bool): (r: string)
    ensures |r| <= |s| && r == s[..|r|]
    ensures r == [] || !drop(r[|r| - 1])
    ensures forall k :: |r| <= k < |s| ==> drop(s[k])
  {
    if s != [] && drop(s[|s| - 1]) then TrimEndBy(s[..|s| - 1], drop) else s
  }

  /** How many leading characters `TrimStartBy` removes. */
  function TrimmedLead(s: string, drop: char -> bool): nat {
    |s| - |TrimStartBy(s, drop)|
  }

  /** `Trim(chars)`: both ends, leading first; what is left is a block of `s`. */
  function TrimBy(s: string, drop: char -> bool): (r: string)
    ensures TrimmedLead(s, drop) + |r| <= |s|
    ensures r == s[TrimmedLead(s, drop)..TrimmedLead(s, drop) + |r|]
    ensures r == [] || (!drop(r[0]) && !drop(r[|r| - 1]))
    ensures forall k :: 0 <= k < TrimmedLead(s, drop) ==> drop(s[k])
    ensures forall k :: TrimmedLead(s, drop) + |r| <= k < |s| ==> drop(s[k])
  {
    TrimEndBy(TrimStartBy(s, drop), drop)
  }

  /** `string.Trim()` */
  function Trim(s: string): string {
    TrimBy(s, IsWhiteSpace)
  }

  /** A character of `s` that `drop` rejects survives trimming. */
  lemma TrimByKeeps(s: string, drop: char -> bool, c: char)
    requires c in s && !drop(c)
    ensures c in TrimBy(s, drop)
  {
    TrimStartKeeps(s, drop, c);
    TrimEndKeeps(TrimStartBy(s, drop), drop, c);
  }

  lemma {:induction false} TrimStartKeeps(s: string, drop: char -> bool, c: char)
    requires c in s && !drop(c)
    ensures c in TrimStartBy(s, drop)
  {
    if s[0] != c {
      assert c in s[1..];
      TrimStartKeeps(s[1..], drop, c);
    }
  }

  lemma {:induction false} TrimEndKeeps(s: string, drop: char -> bool, c: char)
    requires c in s && !drop(c)
    ensures c in TrimEndBy(s, drop)
  {
    var n := |s| - 1;
    if s[n] != c {
      assert s == s[..n] + [s[n]];
      assert c in s[..n];
      TrimEndKeeps(s[..n], drop, c);
    }
  }

  /** ASCII lowering, the only case mapping the model makes. */
  function LowerChar(c: char): char {
    if 'A' <= c <= 'Z' then (c as int + 32) as char else c
  }

  function Lower(s: string): (r: string)
    ensures |r| == |s|
  {
    if s == [] then [] else [LowerChar(s[0])] + Lower(s[1..])
  }

  lemma {:induction false} LowerAt(s: string, i: int)
    requires 0 <= i < |s|
    ensures Lower(s)[i] == LowerChar(s[i])
  {
    if i > 0 { LowerAt(s[1..], i - 1); }
  }

  lemma {:induction false} LowerConcat(a: string, b: string)
    ensures Lower(a + b) == Lower(a) + Lower(b)
  {
    if a != [] {
      assert (a + b)[0] == a[0];
      assert (a + b)[1..] == a[1..] + b;
      LowerConcat(a[1..], b);
      assert Lower(a + b) == [LowerChar(a[0])] + (Lower(a[1..]) + Lower(b));
    } else {
      assert a + b == b;
    }
  }

  /** Lowering twice is lowering once. */
  lemma {:induction false} LowerIdempotent(s: string)
    ensures Lower(Lower(s)) == Lower(s)
  {
    if s != [] { LowerIdempotent(s[1..]); }
  }

  /** Lowering never changes a character that `drop` looks at, so it commutes with trimming. */
  lemma {:induction false} LowerTrimStart(s: string, drop: char -> bool)
    requires forall c :: drop(LowerChar(c)) == drop(c)
    ensures TrimStartBy(Lower(s), drop) == Lower(TrimStartBy(s, drop))
  {
    if s != [] {
      assert Lower(s)[1..] == Lower(s[1..]);
      LowerTrimStart(s[1..], drop);
    }
  }

  lemma {:induction false} LowerPrefix(s: string, n: int)
    requires 0 <= n <= |s|
    ensures Lower(s[..n]) == Lower(s)[..n]
  {
    assert s == s[..n] + s[n..];
    LowerConcat(s[..n], s[n..]);
  }

  lemma {:induction false} LowerTrimEnd(s: string, drop: char -> bool)
    requires forall c :: drop(LowerChar(c)) == drop(c)
    ensures TrimEndBy(Lower(s), drop) == Lower(TrimEndBy(s, drop))
  {
    if s != [] {
      var n := |s| - 1;
      LowerAt(s, n);
      LowerPrefix(s, n);
      LowerTrimEnd(s[..n], drop);
      if drop(s[n]) {
        assert TrimEndBy(Lower(s), drop) == TrimEndBy(Lower(s)[..n], drop);
      } else {
        assert TrimEndBy(Lower(s), drop) == Lower(s);
      }
    }
  }

  lemma LowerTrim(s: string, drop: char -> bool)
    requires forall c :: drop(LowerChar(c)) == drop(c)
    ensures TrimBy(Lower(s), drop) == Lower(TrimBy(s, drop))
  {
    LowerTrimStart(s, drop);
    LowerTrimEnd(TrimStartBy(s, drop), drop);
  }

  /** `needle` occurs in `s` starting at position `i`. */
  predicate OccursAt(needle: string, s: string, i: int) {
    0 <= i <= |s| - |needle| && s[i..i + |needle|] == needle
  }

  /** `needle` occurs in `s` at some position (ordinal `string.Contains`). */
  predicate IsSubstring(needle: string, s: string) {
    exists i | 0 <= i <= |s| - |needle| :: OccursAt(needle, s, i)
  }

  /** `s.Contains(value, StringComparison.OrdinalIgnoreCase)` */
  predicate ContainsIgnoreCase(s: string, value: string) {
    IsSubstring(Lower(value), Lower(s))
  }

  /** `a.Equals(b, StringComparison.OrdinalIgnoreCase)` */
  predicate EqualsIgnoreCase(a: string, b: string) {
    Lower(a) == Lower(b)
  }

  /** `string.IsNullOrEmpty` */
  predicate IsNullOrEmpty(s: Option<string>) {
    s == None || s.value == ""
  }

  /** `string.IsNullOrWhiteSpace` */
  predicate IsNullOrWhiteSpace(s: Option<string>) {
    s == None || forall i :: 0 <= i < |s.value| ==> IsWhiteSpace(s.value[i])
  }

  /** `s?.Trim()` */
  function TrimOpt(s: Option<string>): Option<string> {
    if s == None then None else Some(Trim(s.value))
  }

  /** Position of the first occurrence of `c` (`IndexOf`, -1 as None). */
  function IndexOf(s: string, c: char): (r: Option<nat>)
    ensures r == None <==> c !in s
    ensures r != None ==> r.value < |s| && s[r.value] == c && c !in s[..r.value]
  {
    if s == [] then None
    else if s[0] == c then Some(0)
    else
      var t := IndexOf(s[1..], c);
      if t == None then None else Some(t.value + 1)
  }
}
