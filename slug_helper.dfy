/** `SlugHelper`: turns a note title into the URL fragment stored as the note's slug. */
module SlugHelper {
  import opened Text
  import opened Linq

  predicate IsAsciiAlphanumeric(c: char) {
    'a' <= c <= 'z' || 'A' <= c <= 'Z' || '0' <= c <= '9'
  }

  /** The characters the pattern `[^a-zA-Z0-9\-]` does not match, so they survive its removal. */
  predicate KeepChar(c: char) {
    IsAsciiAlphanumeric(c) || c == '-'
  }

  predicate IsHyphen(c: char) {
    c == '-'
  }

  /** The characters a slug is made of. */
  predicate SlugChar(c: char) {
    'a' <= c <= 'z' || '0' <= c <= '9' || c == '-'
  }

  /** Position `i` starts a `--`. */
  predicate HyphenPairAt(s: string, i: int) {
    0 <= i < |s| - 1 && s[i] == '-' && s[i + 1] == '-'
  }

  predicate NoDoubleHyphen(s: string) {
    forall i :: 0 <= i < |s| - 1 ==> !HyphenPairAt(s, i)
  }

  /** A well-formed slug: slug characters only, no `--`, no hyphen at either end. */
  predicate IsSlug(s: string) {
    (forall i :: 0 <= i < |s| ==> SlugChar(s[i]))
    && NoDoubleHyphen(s)
    && (s == [] || (s[0] != '-' && s[|s| - 1] != '-'))
  }

  /** `Replace(" ", "-")`: only U+0020 is replaced, other white space is left alone. */
  function SpaceToHyphen(c: char): char {
    if c == ' ' then '-' else c
  }

  function ReplaceSpaces(s: string): (r: string)
    ensures |r| == |s|
    ensures forall i :: 0 <= i < |s| ==> r[i] == SpaceToHyphen(s[i])
  {
    if s == [] then [] else [SpaceToHyphen(s[0])] + ReplaceSpaces(s[1..])
  }

  /** `Regex.Replace(input, "[^a-zA-Z0-9\-]", "")` */
  function RemoveSpecialCharacters(s: string): (r: string)
    ensures |r| <= |s|
    ensures forall i :: 0 <= i < |r| ==> KeepChar(r[i])
  {
    WhereAll(s, KeepChar);
    Where(s, KeepChar)
  }

  lemma {:induction false} WhereAll(s: string, p: char -> bool)
    ensures forall i :: 0 <= i < |Where(s, p)| ==> p(Where(s, p)[i])
  {
    if s != [] {
      WhereAll(s[1..], p);
      var h := if p(s[0]) then [s[0]] else [];
      var t := Where(s[1..], p);
      assert Where(s, p) == h + t;
      forall i | 0 <= i < |h + t| ensures p((h + t)[i]) {
        if i >= |h| { assert (h + t)[i] == t[i - |h|]; }
      }
    }
  }

  /** `Regex.Replace(input, "-{2,}", "-")`: every run of two or more hyphens becomes one. */
  function RemoveConsecutiveHyphens(s: string): (r: string)
    ensures |r| <= |s|
    ensures s != [] ==> r != [] && r[0] == s[0]
    ensures NoDoubleHyphen(r)
  {
    if s == [] then []
    else if |s| >= 2 && s[0] == '-' && s[1] == '-' then
      RemoveConsecutiveHyphens(s[1..])
    else
      var t := RemoveConsecutiveHyphens(s[1..]);
      assert forall i :: 1 <= i < |[s[0]] + t| ==> ([s[0]] + t)[i] == t[i - 1];
      assert forall i :: 1 <= i < |[s[0]] + t| ==> HyphenPairAt([s[0]] + t, i) == HyphenPairAt(t, i - 1);
      [s[0]] + t
  }

  /**
   * `GenerateSlug`: spaces to hyphens, drop everything but ASCII letters, digits and hyphens,
   * collapse hyphen runs, trim hyphens, lower-case.
   */
  function GenerateSlug(title: string): (r: string)
    ensures IsSlug(r)
    ensures |r| <= |title|
  {
    var collapsed := RemoveConsecutiveHyphens(RemoveSpecialCharacters(ReplaceSpaces(title)));
    var trimmed := TrimBy(collapsed, IsHyphen);
    CollapseKeepsFiltered(RemoveSpecialCharacters(ReplaceSpaces(title)));
    TrimmedIsSlugShaped(collapsed, trimmed);
    LowerSlugShaped(trimmed);
    Lower(trimmed)
  }

  /** What trimming hyphens leaves of a collapsed, filtered string. */
  lemma TrimmedIsSlugShaped(collapsed: string, trimmed: string)
    requires forall i :: 0 <= i < |collapsed| ==> KeepChar(collapsed[i])
    requires NoDoubleHyphen(collapsed)
    requires trimmed == TrimBy(collapsed, IsHyphen)
    ensures forall i :: 0 <= i < |trimmed| ==> KeepChar(trimmed[i])
    ensures NoDoubleHyphen(trimmed)
    ensures trimmed == [] || (trimmed[0] != '-' && trimmed[|trimmed| - 1] != '-')
  {
    var l := TrimmedLead(collapsed, IsHyphen);
    SliceIsSlugShaped(collapsed, l, l + |trimmed|, trimmed);
  }

  /** A block of a filtered string without `--` is again one. */
  lemma SliceIsSlugShaped(s: string, lo: int, hi: int, t: string)
    requires 0 <= lo <= hi <= |s| && t == s[lo..hi]
    requires forall i :: 0 <= i < |s| ==> KeepChar(s[i])
    requires NoDoubleHyphen(s)
    ensures forall i :: 0 <= i < |t| ==> KeepChar(t[i])
    ensures NoDoubleHyphen(t)
  {
    assert forall i :: 0 <= i < |t| ==> t[i] == s[lo + i];
    forall i | 0 <= i < |t| - 1 ensures !HyphenPairAt(t, i) {
      assert t[i] == s[lo + i] && t[i + 1] == s[lo + i + 1];
      assert !HyphenPairAt(s, lo + i);
    }
  }

  lemma {:induction false} LowerSlugShaped(s: string)
    requires forall i :: 0 <= i < |s| ==> KeepChar(s[i])
    requires NoDoubleHyphen(s)
    requires s == [] || (s[0] != '-' && s[|s| - 1] != '-')
    ensures IsSlug(Lower(s))
  {
    forall i | 0 <= i < |s| ensures Lower(s)[i] == LowerChar(s[i]) {
      LowerAt(s, i);
    }
    forall i | 0 <= i < |s| - 1 ensures !HyphenPairAt(Lower(s), i) {
      assert !HyphenPairAt(s, i);
    }
  }

  // ---------------------------------------------------------------------
  // Idempotence: a slug is its own slug.

  lemma {:induction false} ReplaceSpacesNoSpace(s: string)
    requires forall i :: 0 <= i < |s| ==> s[i] != ' '
    ensures ReplaceSpaces(s) == s
  {
  }

  lemma {:induction false} WhereKeepsAll(s: string, p: char -> bool)
    requires forall i :: 0 <= i < |s| ==> p(s[i])
    ensures Where(s, p) == s
  {
    if s != [] {
      WhereKeepsAll(s[1..], p);
      assert s == [s[0]] + s[1..];
    }
  }

  lemma {:induction false} CollapseNoDouble(s: string)
    requires NoDoubleHyphen(s)
    ensures RemoveConsecutiveHyphens(s) == s
  {
    if s != [] {
      assert NoDoubleHyphen(s[1..]) by {
        forall i | 0 <= i < |s[1..]| - 1 ensures !HyphenPairAt(s[1..], i) {
          assert s[1..][i] == s[i + 1] && s[1..][i + 1] == s[i + 2];
          assert !HyphenPairAt(s, i + 1);
        }
      }
      CollapseNoDouble(s[1..]);
      assert |s| >= 2 ==> !HyphenPairAt(s, 0);
      assert s == [s[0]] + s[1..];
    }
  }

  lemma {:induction false} LowerNoUpper(s: string)
    requires forall i :: 0 <= i < |s| ==> !('A' <= s[i] <= 'Z')
    ensures Lower(s) == s
  {
    if s != [] {
      LowerNoUpper(s[1..]);
      assert s == [s[0]] + s[1..];
    }
  }

  lemma TrimNothing(s: string, drop: char -> bool)
    requires s == [] || (!drop(s[0]) && !drop(s[|s| - 1]))
    ensures TrimBy(s, drop) == s
  {
  }

  /** A well-formed slug is left unchanged by slug generation. */
  lemma SlugOfSlug(s: string)
    requires IsSlug(s)
    ensures GenerateSlug(s) == s
  {
    ReplaceSpacesNoSpace(s);
    WhereKeepsAll(s, KeepChar);
    CollapseNoDouble(s);
    TrimNothing(s, IsHyphen);
    LowerNoUpper(s);
    FixedPoint(s);
  }

  /** A string every step of slug generation leaves alone is its own slug. */
  lemma FixedPoint(s: string)
    requires ReplaceSpaces(s) == s && Where(s, KeepChar) == s && RemoveConsecutiveHyphens(s) == s
    requires TrimBy(s, IsHyphen) == s && Lower(s) == s
    ensures GenerateSlug(s) == s
  {
  }

  /** Generating a slug a second time changes nothing. */
  lemma SlugIdempotent(title: string)
    ensures GenerateSlug(GenerateSlug(title)) == GenerateSlug(title)
  {
    SlugOfSlug(GenerateSlug(title));
  }

  // ---------------------------------------------------------------------
  // Titles that differ only in letter case or only in punctuation share a slug.

  lemma {:induction false} ReplaceSpacesLower(s: string)
    ensures ReplaceSpaces(Lower(s)) == Lower(ReplaceSpaces(s))
  {
    if s != [] {
      ReplaceSpacesLower(s[1..]);
      assert Lower(s)[1..] == Lower(s[1..]);
    }
  }

  lemma {:induction false} WhereLower(s: string)
    ensures Where(Lower(s), KeepChar) == Lower(Where(s, KeepChar))
  {
    if s != [] {
      WhereLower(s[1..]);
      assert Lower(s)[1..] == Lower(s[1..]);
      var h := if KeepChar(s[0]) then [s[0]] else [];
      LowerConcat(h, Where(s[1..], KeepChar));
    }
  }

  lemma {:induction false} CollapseLower(s: string)
    ensures RemoveConsecutiveHyphens(Lower(s)) == Lower(RemoveConsecutiveHyphens(s))
  {
    if s != [] {
      CollapseLower(s[1..]);
      assert Lower(s)[1..] == Lower(s[1..]);
      if |s| >= 2 {
        LowerAt(s, 1);
      }
    }
  }

  /** Upper- and lower-case spellings of a title give the same slug. */
  lemma SlugOfLower(title: string)
    ensures GenerateSlug(Lower(title)) == GenerateSlug(title)
  {
    var replaced := ReplaceSpaces(title);
    var filtered := RemoveSpecialCharacters(replaced);
    var collapsed := RemoveConsecutiveHyphens(filtered);
    var trimmed := TrimBy(collapsed, IsHyphen);
    ReplaceSpacesLower(title);
    assert ReplaceSpaces(Lower(title)) == Lower(replaced);
    WhereLower(replaced);
    assert RemoveSpecialCharacters(Lower(replaced)) == Lower(filtered);
    CollapseLower(filtered);
    LowerTrim(collapsed, IsHyphen);
    assert TrimBy(Lower(collapsed), IsHyphen) == Lower(trimmed);
    LowerIdempotent(trimmed);
    assert GenerateSlug(title) == Lower(trimmed);
  }

  lemma SlugIgnoresCase(a: string, b: string)
    requires EqualsIgnoreCase(a, b)
    ensures GenerateSlug(a) == GenerateSlug(b)
  {
    SlugOfLower(a);
    SlugOfLower(b);
  }

  /** The characters a slug can be built from: everything except punctuation and non-space white space. */
  predicate NotPunctuation(c: char) {
    KeepChar(c) || c == ' '
  }

  lemma {:induction false} FilterPunctuation(t: string)
    ensures RemoveSpecialCharacters(ReplaceSpaces(Where(t, NotPunctuation)))
         == RemoveSpecialCharacters(ReplaceSpaces(t))
  {
    if t != [] {
      FilterPunctuation(t[1..]);
      var w := Where(t[1..], NotPunctuation);
      assert ReplaceSpaces(t) == [SpaceToHyphen(t[0])] + ReplaceSpaces(t[1..]);
      assert ReplaceSpaces(t)[1..] == ReplaceSpaces(t[1..]);
      if NotPunctuation(t[0]) {
        assert Where(t, NotPunctuation) == [t[0]] + w;
        assert ReplaceSpaces([t[0]] + w) == [SpaceToHyphen(t[0])] + ReplaceSpaces(w);
        assert ReplaceSpaces([t[0]] + w)[1..] == ReplaceSpaces(w);
      } else {
        assert Where(t, NotPunctuation) == w;
        assert !KeepChar(SpaceToHyphen(t[0]));
      }
    }
  }

  /** Titles that agree once punctuation is removed give the same slug. */
  lemma SlugIgnoresPunctuation(a: string, b: string)
    requires Where(a, NotPunctuation) == Where(b, NotPunctuation)
    ensures GenerateSlug(a) == GenerateSlug(b)
  {
    FilterPunctuation(a);
    FilterPunctuation(b);
  }

  // ---------------------------------------------------------------------
  // The empty slug.

  lemma {:induction false} CollapseKeeps(s: string, c: char)
    requires c in s && c != '-'
    ensures c in RemoveConsecutiveHyphens(s)
  {
    if s[0] != c {
      CollapseKeeps(s[1..], c);
    }
  }

  /** Collapsing hyphen runs introduces no character. */
  lemma {:induction false} CollapseChars(s: string, c: char)
    requires c in RemoveConsecutiveHyphens(s)
    ensures c in s
  {
    if |s| >= 2 && s[0] == '-' && s[1] == '-' {
      CollapseChars(s[1..], c);
    } else if c != s[0] {
      assert RemoveConsecutiveHyphens(s) == [s[0]] + RemoveConsecutiveHyphens(s[1..]);
      CollapseChars(s[1..], c);
    }
  }

  lemma CollapseKeepsFiltered(s: string)
    requires forall i :: 0 <= i < |s| ==> KeepChar(s[i])
    ensures forall i :: 0 <= i < |RemoveConsecutiveHyphens(s)| ==> KeepChar(RemoveConsecutiveHyphens(s)[i])
  {
    var r := RemoveConsecutiveHyphens(s);
    forall i | 0 <= i < |r| ensures KeepChar(r[i]) {
      CollapseChars(s, r[i]);
    }
  }

  /** A title with an ASCII letter or digit has a non-empty slug. */
  lemma SlugNonEmpty(title: string, i: int)
    requires 0 <= i < |title| && IsAsciiAlphanumeric(title[i])
    ensures GenerateSlug(title) != []
  {
    var replaced := ReplaceSpaces(title);
    var filtered := RemoveSpecialCharacters(replaced);
    var collapsed := RemoveConsecutiveHyphens(filtered);
    var c := title[i];
    assert replaced[i] == c;
    WhereCount(replaced, KeepChar, c);
    CollapseKeeps(filtered, c);
    TrimByKeeps(collapsed, IsHyphen, c);
    assert GenerateSlug(title) == Lower(TrimBy(collapsed, IsHyphen));
  }

  /** A title without ASCII letters or digits has the empty slug. */
  lemma SlugEmpty(title: string)
    requires forall i :: 0 <= i < |title| ==> !IsAsciiAlphanumeric(title[i])
    ensures GenerateSlug(title) == []
  {
    var replaced := ReplaceSpaces(title);
    var filtered := RemoveSpecialCharacters(replaced);
    var collapsed := RemoveConsecutiveHyphens(filtered);
    forall i | 0 <= i < |collapsed| ensures collapsed[i] == '-' {
      var c := collapsed[i];
      CollapseChars(filtered, c);
      WhereCount(replaced, KeepChar, c);
      var j :| 0 <= j < |replaced| && replaced[j] == c;
    }
    var trimmed := TrimBy(collapsed, IsHyphen);
    assert GenerateSlug(title) == Lower(trimmed);
  }

  /** The slug is empty exactly when the title has no ASCII letter or digit. */
  lemma SlugEmptyIff(title: string)
    ensures GenerateSlug(title) == [] <==> forall i :: 0 <= i < |title| ==> !IsAsciiAlphanumeric(title[i])
  {
    if i :| 0 <= i < |title| && IsAsciiAlphanumeric(title[i]) {
      SlugNonEmpty(title, i);
    } else {
      SlugEmpty(title);
    }
  }
}
