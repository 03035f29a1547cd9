/** The parts of a POSIX path that announcements use, as Python's
    `pathlib.PurePosixPath` computes them (Python 3.8 to 3.12): the final
    component `name`, its `suffix` (the last dot-part, if the dot is
    neither first nor last) and its `stem`, and the lower-cased extension
    without the dot. */
module Paths {
  import opened Prelude
  import opened Text

  /** Length of the leading run of characters other than '/'. */
  function SegmentLength(p: string): (n: nat)
    ensures n <= |p|
    ensures forall i :: 0 <= i < n ==> p[i] != '/'
    ensures n < |p| ==> p[n] == '/'
    decreases |p|
  {
    if p == [] || p[0] == '/' then 0 else 1 + SegmentLength(p[1..])
  }

  /** A component as pathlib keeps it: not empty, not ".", no separator. */
  predicate IsComponent(c: string) {
    c != "" && c != "." && '/' !in c
  }

  /** The components pathlib keeps: the '/'-separated parts without the
      empty ones and without ".". */
  function Components(p: string): (cs: seq<string>)
    ensures forall i :: 0 <= i < |cs| ==> IsComponent(cs[i])
    decreases |p|
  {
    if p == [] then []
    else if p[0] == '/' then Components(p[1..])
    else
      var n := SegmentLength(p);
      assert forall c :: c in p[..n] ==> c != '/';
      (if p[..n] == "." then [] else [p[..n]]) + Components(p[n..])
  }

  /** Python `PurePath(p).name`: the last kept component, or "" (for "",
      "." and "/"). */
  function Name(p: string): (n: string)
    ensures '/' !in n && n != "."
  {
    var cs := Components(p);
    if cs == [] then "" else cs[|cs| - 1]
  }

  /** A path ending in a separator-free component has that component as
      its name. */
  lemma {:induction false} ComponentsAppend(d: string, n: string)
    requires IsComponent(n)
    ensures Components(d + "/" + n) == Components(d) + [n]
    decreases |d|
  {
    if d == [] {
      assert ("/" + n)[1..] == n;
      ComponentsOfComponent(n);
    } else if d[0] == '/' {
      assert (d + "/" + n)[1..] == d[1..] + "/" + n;
      ComponentsAppend(d[1..], n);
    } else {
      var p := d + "/" + n;
      var k := SegmentLength(d);
      SegmentLengthPrefix(d, "/" + n);
      assert p[..k] == d[..k];
      assert p[k..] == d[k..] + "/" + n;
      ComponentsAppend(d[k..], n);
    }
  }

  lemma SegmentLengthPrefix(d: string, rest: string)
    requires rest != [] && rest[0] == '/'
    ensures SegmentLength(d + rest) == SegmentLength(d)
    decreases |d|
  {
    if d != [] && d[0] != '/' {
      assert (d + rest)[1..] == d[1..] + rest;
      SegmentLengthPrefix(d[1..], rest);
    }
  }

  lemma ComponentsOfComponent(n: string)
    requires IsComponent(n)
    ensures Components(n) == [n]
  {
    SegmentLengthAll(n);
    assert n[..|n|] == n;
    assert n[|n|..] == [];
  }

  lemma SegmentLengthAll(n: string)
    requires '/' !in n
    ensures SegmentLength(n) == |n|
    decreases |n|
  {
    if n != [] {
      assert forall c :: c in n[1..] ==> c in n;
      SegmentLengthAll(n[1..]);
    }
  }

  /** The name of "directory/component" is the component, whatever the
      directory. */
  lemma NameOfJoin(d: string, n: string)
    requires IsComponent(n)
    ensures Name(d + "/" + n) == n
  {
    ComponentsAppend(d, n);
  }

  /** Where the suffix starts: the last '.', when it is neither the first
      nor the last character. */
  function SuffixStart(name: string): (r: Option<nat>)
    ensures r.Some? ==> 0 < r.value < |name| - 1 && name[r.value] == '.'
    ensures r.Some? ==> forall j :: r.value < j < |name| ==> name[j] != '.'
  {
    match RFind(name, ".")
    case Some(i) =>
      forall j | i < j < |name|
        ensures name[j] != '.'
      {
        assert !OccursAt(name, ".", j);
        assert name[j..j + 1] == [name[j]];
      }
      if 0 < i < |name| - 1 then (assert name[i..i + 1] == "."; Some(i)) else None
    case None => None
  }

  /** Python `PurePath.suffix` of a name. */
  function Suffix(name: string): (s: string)
    ensures s == [] || (|s| >= 2 && s[0] == '.' && '.' !in s[1..])
  {
    match SuffixStart(name)
    case Some(i) =>
      assert forall k :: 1 <= k < |name[i..]| ==> name[i..][k] == name[i + k];
      name[i..]
    case None => ""
  }

  /** Python `PurePath.stem` of a name. */
  function Stem(name: string): (s: string)
    ensures |s| <= |name|
  {
    match SuffixStart(name)
    case Some(i) => name[..i]
    case None => name
  }

  /** The stem and the suffix split the name, with a non-empty stem
      whenever there is a suffix. */
  lemma StemSuffix(name: string)
    ensures Stem(name) + Suffix(name) == name
    ensures Suffix(name) != [] ==> Stem(name) != []
  {
    if SuffixStart(name).Some? {
      var i := SuffixStart(name).value;
      assert name[..i] + name[i..] == name;
    }
  }

  /** The suffix of "stem.ext" is ".ext" and its stem is "stem", for a
      non-empty stem and a non-empty, dot-free extension. */
  lemma SplitExtension(stem: string, ext: string)
    requires stem != [] && ext != [] && '.' !in ext
    ensures Suffix(stem + "." + ext) == "." + ext
    ensures Stem(stem + "." + ext) == stem
  {
    var name := stem + "." + ext;
    var k := |stem|;
    assert OccursAt(name, ".", k);
    var r := RFind(name, ".");
    assert r.Some?;
    forall j | k < j
      ensures !OccursAt(name, ".", j)
    {
      if j < |name| {
        assert name[j] == ext[j - k - 1];
      }
    }
    assert r.value == k;
    assert name[k..] == "." + ext;
  }

  /** Python `str.lstrip(c)` for one character. */
  function LStripChar(s: string, c: char): (r: string)
    ensures |r| <= |s| && r == s[|s| - |r|..]
    ensures r == [] || r[0] != c
    ensures forall i :: 0 <= i < |s| - |r| ==> s[i] == c
    decreases |s|
  {
    if s != [] && s[0] == c then LStripChar(s[1..], c) else s
  }

  /** Python `path.suffix.lower().lstrip('.')`: the lower-cased suffix
      without its dot, or "" when there is no suffix. */
  function Extension(name: string): (e: string)
    ensures e == [] <==> Suffix(name) == []
    ensures Suffix(name) != [] ==> e == Lower(Suffix(name)[1..])
  {
    var s := Suffix(name);
    if s != [] then
      assert Lower(s)[0] == '.';
      assert Lower(s)[1..] == Lower(s[1..]);
      assert forall k :: 0 <= k < |s| - 1 ==> Lower(s[1..])[k] == LowerChar(s[k + 1]);
      assert LStripChar(Lower(s)[1..], '.') == Lower(s)[1..];
      LStripChar(Lower(s), '.')
    else LStripChar(Lower(s), '.')
  }
}
