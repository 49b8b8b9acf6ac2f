/**
 * What both services do with their XML document: its root's child elements form a sequence of
 * records; an element's children are looked up by name (`Element(name)?.Value`), and numbers are
 * read with `Convert.ToInt32`.
 */
module XmlStore {
  import opened Base

  /** A child element holding text. */
  datatype Child = Child(name: string, text: string)

  /**
   * `Convert.ToInt32(element?.Value)` of a numeric child: a missing child (null) reads as 0. A
   * present child is held as the number its text spells.
   */
  function ToInt32(v: Option<Int32>): (r: Int32)
    ensures v == None ==> r == 0
    ensures v != None ==> r == v.value
  {
    v.GetOr(0)
  }

  /** Index of the first element satisfying `p` (what `FirstOrDefault(p)` finds), if any. */
  function FirstIndex<T>(s: seq<T>, p: T -> bool): (r: Option<nat>)
    ensures r == None <==> forall i :: 0 <= i < |s| ==> !p(s[i])
    ensures r != None ==> r.value < |s| && p(s[r.value]) && forall i :: 0 <= i < r.value ==> !p(s[i])
  {
    if s == [] then None
    else if p(s[0]) then Some(0)
    else
      var t := FirstIndex(s[1..], p);
      assert forall i :: 1 <= i < |s| ==> s[i] == s[1..][i - 1];
      if t == None then None else Some(t.value + 1)
  }

  /** Appending an element never changes an earlier first match; it is found only when nothing before it matches. */
  lemma {:induction false} FirstIndexAppend<T>(s: seq<T>, x: T, p: T -> bool)
    ensures FirstIndex(s, p) != None ==> FirstIndex(s + [x], p) == FirstIndex(s, p)
    ensures FirstIndex(s, p) == None ==> FirstIndex(s + [x], p) == if p(x) then Some(|s|) else None
  {
    if s == [] {
      assert s + [x] == [x];
    } else {
      assert (s + [x])[0] == s[0];
      assert (s + [x])[1..] == s[1..] + [x];
      FirstIndexAppend(s[1..], x, p);
    }
  }

  /** `XElement.Remove()` on the element at index `i`. */
  function RemoveAt<T>(s: seq<T>, i: nat): (r: seq<T>)
    requires i < |s|
    ensures |r| == |s| - 1
    ensures forall j :: 0 <= j < i ==> r[j] == s[j]
    ensures forall j :: i <= j < |r| ==> r[j] == s[j + 1]
  {
    s[..i] + s[i + 1..]
  }

  function NameIs(name: string): Child -> bool {
    (c: Child) => c.name == name
  }

  /** `e.Element(name)?.Value`: the text of the first child called `name`. */
  function FirstChild(cs: seq<Child>, name: string): (r: Option<string>)
    ensures r == None <==> forall i :: 0 <= i < |cs| ==> cs[i].name != name
    ensures r != None ==> exists i :: (0 <= i < |cs| && cs[i] == Child(name, r.value)
      && forall j :: 0 <= j < i ==> cs[j].name != name)
    ensures var k := FirstIndex(cs, NameIs(name)); k != None ==> r == Some(cs[k.value].text)
  {
    if cs == [] then None
    else if cs[0].name == name then Some(cs[0].text)
    else
      var t := FirstChild(cs[1..], name);
      assert forall i :: 1 <= i < |cs| ==> cs[i] == cs[1..][i - 1];
      t
  }

  /**
   * `var c = e.Element(name); if (c != null) c.SetValue(text); else e.Add(new XElement(name, text));`
   */
  function SetOrAddChild(cs: seq<Child>, name: string, text: string): (r: seq<Child>)
    ensures FirstChild(r, name) == Some(text)
    ensures |r| == if FirstChild(cs, name) == None then |cs| + 1 else |cs|
  {
    if cs == [] then [Child(name, text)]
    else if cs[0].name == name then [Child(name, text)] + cs[1..]
    else [cs[0]] + SetOrAddChild(cs[1..], name, text)
  }

  /** `e.Element(name)?.Remove()`: the first child called `name` goes, if there is one. */
  function RemoveChild(cs: seq<Child>, name: string): (r: seq<Child>)
    ensures |r| == if FirstChild(cs, name) == None then |cs| else |cs| - 1
    ensures FirstChild(cs, name) == None ==> r == cs
    ensures var k := FirstIndex(cs, NameIs(name)); k != None ==> r == RemoveAt(cs, k.value)
  {
    if cs == [] then []
    else if cs[0].name == name then cs[1..]
    else
      var k := FirstIndex(cs[1..], NameIs(name));
      if k != None then
        RemoveAtCons(cs[0], cs[1..], k.value);
        assert [cs[0]] + cs[1..] == cs;
        [cs[0]] + RemoveChild(cs[1..], name)
      else [cs[0]] + RemoveChild(cs[1..], name)
  }

  lemma RemoveAtCons<T>(x: T, s: seq<T>, k: nat)
    requires k < |s|
    ensures [x] + RemoveAt(s, k) == RemoveAt([x] + s, k + 1)
  {
    assert ([x] + s)[..k + 1] == [x] + s[..k];
    assert ([x] + s)[k + 2..] == s[k + 1..];
  }

  /** Setting one child and removing another, differently named, can be done in either order. */
  lemma {:induction false} SetRemoveCommute(cs: seq<Child>, name: string, text: string, other: string)
    requires other != name
    ensures RemoveChild(SetOrAddChild(cs, name, text), other) == SetOrAddChild(RemoveChild(cs, other), name, text)
  {
    if cs == [] {
    } else if cs[0].name == name {
      assert ([Child(name, text)] + cs[1..])[1..] == cs[1..];
      assert RemoveChild(cs, other) == [cs[0]] + RemoveChild(cs[1..], other);
      assert (RemoveChild(cs, other))[1..] == RemoveChild(cs[1..], other);
    } else if cs[0].name == other {
      assert ([cs[0]] + SetOrAddChild(cs[1..], name, text))[1..] == SetOrAddChild(cs[1..], name, text);
    } else {
      SetRemoveCommute(cs[1..], name, text, other);
      assert ([cs[0]] + SetOrAddChild(cs[1..], name, text))[1..] == SetOrAddChild(cs[1..], name, text);
      assert ([cs[0]] + RemoveChild(cs[1..], other))[1..] == RemoveChild(cs[1..], other);
    }
  }

  /** Setting or removing `name` leaves every other child's lookup as it was. */
  lemma {:induction false} OtherChildrenUnchanged(cs: seq<Child>, name: string, text: string, other: string)
    requires other != name
    ensures FirstChild(SetOrAddChild(cs, name, text), other) == FirstChild(cs, other)
    ensures FirstChild(RemoveChild(cs, name), other) == FirstChild(cs, other)
  {
    if cs != [] && cs[0].name != name {
      OtherChildrenUnchanged(cs[1..], name, text, other);
      assert ([cs[0]] + SetOrAddChild(cs[1..], name, text))[1..] == SetOrAddChild(cs[1..], name, text);
      assert ([cs[0]] + RemoveChild(cs[1..], name))[1..] == RemoveChild(cs[1..], name);
    } else if cs != [] {
      assert ([Child(name, text)] + cs[1..])[1..] == cs[1..];
    }
  }

  function Max(ids: seq<Int32>): (m: Int32)
    requires ids != []
    ensures m in ids
    ensures forall i :: 0 <= i < |ids| ==> ids[i] <= m
  {
    if |ids| == 1 then ids[0]
    else
      var t := Max(ids[1..]);
      assert forall i :: 1 <= i < |ids| ==> ids[i] == ids[1..][i - 1];
      if ids[0] >= t then ids[0] else t
  }

  /**
   * `GetNextId`: 1 for an empty collection, otherwise the largest id plus one, in unchecked C#
   * arithmetic (the largest `int` is followed by the smallest).
   */
  function NextId(ids: seq<Int32>): (r: Int32)
    ensures ids == [] ==> r == 1
    ensures ids != [] && Max(ids) < MaxInt32 ==> r == Max(ids) + 1
    ensures ids != [] && Max(ids) == MaxInt32 ==> r == MinInt32
  {
    if ids == [] then 1 else Wrap32(Max(ids) + 1)
  }

  /** Below the `int` limit, the next id is fresh: it exceeds every id in use. */
  lemma NextIdFresh(ids: seq<Int32>)
    requires forall i :: 0 <= i < |ids| ==> ids[i] < MaxInt32
    ensures forall i :: 0 <= i < |ids| ==> ids[i] < NextId(ids)
    ensures ids != [] ==> NextId(ids) - 1 in ids
  {
  }

  /** The next id depends only on the largest id in use; adding smaller ids changes nothing. */
  lemma {:induction false} NextIdOfMax(ids: seq<Int32>, more: seq<Int32>)
    requires ids != []
    requires forall i :: 0 <= i < |more| ==> more[i] <= Max(ids)
    ensures NextId(ids + more) == NextId(ids)
  {
    var all := ids + more;
    var m := Max(all);
    assert m == Max(ids) by {
      assert Max(ids) in all;
      if k :| 0 <= k < |all| && all[k] == m {
        if k >= |ids| { assert more[k - |ids|] == m; }
      }
    }
  }
}
