/** `DataHelper`: the string utilities the services and controllers share. */
module DataHelper {
  import opened Base
  import opened Text
  import opened Runtime

  /** `GetUsernameFromEmail`: the part before the first '@', or the whole string without one. */
  function GetUsernameFromEmail(email: string): (r: string)
    ensures '@' !in r
    ensures |r| <= |email| && r == email[..|r|]
    ensures '@' !in email ==> r == email
    ensures '@' in email ==> email[|r|] == '@'
  {
    var at := IndexOf(email, '@');
    if at == None then email else email[..at.value]
  }

  /** `CompareText`: equal after trimming and lower-casing both strings. */
  predicate CompareText(input: string, existing: string) {
    Lower(Trim(input)) == Lower(Trim(existing))
  }

  lemma CompareTextEquivalence(a: string, b: string, c: string)
    ensures CompareText(a, a)
    ensures CompareText(a, b) <==> CompareText(b, a)
    ensures CompareText(a, b) && CompareText(b, c) ==> CompareText(a, c)
  {
  }

  /** Lower-casing a string never changes what `CompareText` sees. */
  lemma CompareTextIgnoresCase(a: string)
    ensures CompareText(Lower(a), a)
  {
    LowerTrim(a, IsWhiteSpace);
    LowerIdempotent(Trim(a));
  }

  /** Position of the first '>' in `s` with no line break before it (where `.*?>` can end). */
  function TagEnd(s: string): (r: Option<nat>)
    ensures r != None ==> r.value < |s| && s[r.value] == '>'
    ensures r != None ==> forall k :: 0 <= k < r.value ==> s[k] != '>' && s[k] != '\n'
    ensures r == None ==> forall k :: 0 <= k < |s| && s[k] == '>' ==> exists j :: 0 <= j < k && s[j] == '\n'
  {
    if s == [] || s[0] == '\n' then None
    else if s[0] == '>' then Some(0)
    else
      var t := TagEnd(s[1..]);
      if t == None then
        assert forall k :: 1 <= k < |s| && s[k] == '>' ==> s[1..][k - 1] == '>';
        None
      else Some(t.value + 1)
  }

  /**
   * `Regex.Replace(s, "<.*?>", "")`: scanning left to right, each '<' that reaches a '>' on the same
   * line is removed together with everything up to the first such '>'; other characters stay.
   */
  function StripTags(s: string): (r: string)
    ensures |r| <= |s|
    ensures '<' !in s ==> r == s
    decreases |s|
  {
    if s == [] then []
    else if s[0] == '<' && TagEnd(s[1..]) != None then
      StripTags(s[TagEnd(s[1..]).value + 2..])
    else
      [s[0]] + StripTags(s[1..])
  }

  /** No '<' of `s` starts a tag: every '<' is followed by a line break or the end before any '>'. */
  predicate TagFree(s: string) {
    forall i :: 0 <= i < |s| && s[i] == '<' ==> TagEnd(s[i + 1..]) == None
  }

  /** Text in which no '>' comes before the first line break keeps that property when stripped. */
  lemma {:induction false} StripTagsNoTagEnd(s: string)
    requires TagEnd(s) == None
    ensures TagEnd(StripTags(s)) == None
  {
    if s != [] && s[0] != '\n' {
      StripTagsNoTagEnd(s[1..]);
      assert StripTags(s) == [s[0]] + StripTags(s[1..]);
      assert ([s[0]] + StripTags(s[1..]))[1..] == StripTags(s[1..]);
    }
  }

  /** Stripping leaves no tag behind. */
  lemma {:induction false} StripTagsTagFree(s: string)
    ensures TagFree(StripTags(s))
    decreases |s|
  {
    if s == [] {
    } else if s[0] == '<' && TagEnd(s[1..]) != None {
      StripTagsTagFree(s[TagEnd(s[1..]).value + 2..]);
    } else {
      var t := StripTags(s[1..]);
      StripTagsTagFree(s[1..]);
      var r := [s[0]] + t;
      assert r[1..] == t;
      if s[0] == '<' { StripTagsNoTagEnd(s[1..]); }
      forall i | 0 <= i < |r| && r[i] == '<' ensures TagEnd(r[i + 1..]) == None {
        if i > 0 {
          assert r[i] == t[i - 1];
          assert r[i + 1..] == t[i..];
        }
      }
    }
  }

  /** Text without tags passes through unchanged, so stripping twice is stripping once. */
  lemma {:induction false} StripTagsOfTagFree(s: string)
    requires TagFree(s)
    ensures StripTags(s) == s
  {
    if s != [] {
      assert TagFree(s[1..]) by {
        forall i | 0 <= i < |s[1..]| && s[1..][i] == '<' ensures TagEnd(s[1..][i + 1..]) == None {
          assert s[1..][i + 1..] == s[i + 2..];
        }
      }
      StripTagsOfTagFree(s[1..]);
      assert s == [s[0]] + s[1..];
    }
  }

  lemma StripTagsIdempotent(s: string)
    ensures StripTags(StripTags(s)) == StripTags(s)
  {
    StripTagsTagFree(s);
    StripTagsOfTagFree(StripTags(s));
  }

  /** `GetPlainText(s, decode)` */
  function GetPlainText(p: Platform, htmlContent: string, decode: bool): (r: string)
    ensures |r| <= |if decode then p.htmlDecode(htmlContent) else htmlContent|
    ensures r == [] || (!IsWhiteSpace(r[0]) && !IsWhiteSpace(r[|r| - 1]))
    ensures !decode && '<' !in htmlContent ==> r == Trim(htmlContent)
  {
    Trim(StripTags(if decode then p.htmlDecode(htmlContent) else htmlContent))
  }

  /**
   * `GetShortText(s, maxLength, decode)`: the plain text cut to `maxLength` characters. A negative
   * `maxLength` is always below the length, and `Substring` throws on it; that is `None`.
   */
  function GetShortText(p: Platform, htmlContent: string, maxLength: int, decode: bool): (r: Option<string>)
    ensures r == None <==> maxLength < 0
    ensures maxLength >= 0 ==> r != None && r.value == GetPlainText(p, htmlContent, decode)[..Min(maxLength, |GetPlainText(p, htmlContent, decode)|)]
  {
    var plain := GetPlainText(p, htmlContent, decode);
    if |plain| > maxLength then
      if maxLength < 0 then None else Some(plain[..maxLength])
    else Some(plain)
  }
}
