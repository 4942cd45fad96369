/** File-name arithmetic as Python's `ntpath` does it (the program is run with
    Windows paths): `basename`, `splitext`, `join` for a relative name, and
    `str.endswith`. Both `\` and `/` separate path components; drive prefixes
    are not modelled. */
module Paths {

  predicate IsSep(c: char) { c == '\\' || c == '/' }

  predicate IsDot(c: char) { c == '.' }

  /** No component separator occurs in `s`. */
  predicate NoSep(s: string) { forall k :: 0 <= k < |s| ==> !IsSep(s[k]) }

  /** Python's `rfind` generalised to a character class: the last index whose
      character satisfies `q`, or -1 when there is none. */
  function RFind(p: string, q: char -> bool): (r: int)
    ensures -1 <= r < |p|
    ensures r >= 0 ==> q(p[r])
    ensures forall k :: r < k < |p| ==> !q(p[k])
  {
    if |p| == 0 then -1
    else if q(p[|p| - 1]) then |p| - 1
    else RFind(p[..|p| - 1], q)
  }

  /** The contract of `RFind` pins its value down: any index that is a hit
      with no hit after it is the result. */
  lemma RFindUnique(p: string, q: char -> bool, r: int)
    requires -1 <= r < |p|
    requires r >= 0 ==> q(p[r])
    requires forall k :: r < k < |p| ==> !q(p[k])
    ensures RFind(p, q) == r
  {
  }

  /** `os.path.basename`: the part after the last separator. */
  function Basename(p: string): (r: string)
    ensures NoSep(r)
    ensures |r| <= |p| && p[|p| - |r|..] == r
    ensures |r| < |p| ==> IsSep(p[|p| - |r| - 1])
  {
    p[RFind(p, IsSep) + 1..]
  }

  /** `os.path.join(dir, name)` for a relative `name`: a separator is inserted
      unless `dir` is empty or already ends in one. */
  function Join(dir: string, name: string): string
  {
    if |dir| == 0 || IsSep(dir[|dir| - 1]) then dir + name else dir + "\\" + name
  }

  /** Joining a separator-free name onto a directory and taking the basename gives the name back. */
  lemma BasenameOfJoin(dir: string, name: string)
    requires NoSep(name)
    ensures Basename(Join(dir, name)) == name
  {
    var p := Join(dir, name);
    var at := |p| - |name| - 1;
    assert p[|p| - |name|..] == name;
    if at >= 0 {
      assert IsSep(p[at]);
    }
    RFindUnique(p, IsSep, at);
  }

  /** Some character strictly between positions `lo` and `hi` of `p` is not a dot. */
  predicate HasNonDotBetween(p: string, lo: int, hi: int)
    requires -1 <= lo && hi <= |p|
  {
    exists k :: lo < k < hi && !IsDot(p[k])
  }

  /** `os.path.splitext`: the extension starts at the last dot of the last
      component, unless everything before that dot in the component is dots
      (so `.bashrc` and `..png` have no extension). */
  function SplitExt(p: string): (r: (string, string))
    ensures r.0 + r.1 == p
    ensures r.1 == [] || (r.1[0] == '.' && forall k :: 1 <= k < |r.1| ==> !IsDot(r.1[k]) && !IsSep(r.1[k]))
  {
    var s := RFind(p, IsSep);
    var d := RFind(p, IsDot);
    if d > s && HasNonDotBetween(p, s, d) then (p[..d], p[d..]) else (p, "")
  }

  function Stem(p: string): string { SplitExt(p).0 }

  /** The stem of a separator-free name is separator-free. */
  lemma StemNoSep(p: string)
    requires NoSep(p)
    ensures NoSep(Stem(p))
  {
    var r := SplitExt(p);
    forall k | 0 <= k < |r.0|
      ensures !IsSep(r.0[k])
    {
      assert r.0[k] == (r.0 + r.1)[k];
    }
  }

  function Ext(p: string): string { SplitExt(p).1 }

  /** `s.endswith(suffix)`. */
  predicate EndsWith(s: string, suffix: string)
  {
    |suffix| <= |s| && s[|s| - |suffix|..] == suffix
  }

  /** A joined path ends with the name joined on. */
  lemma JoinEndsWith(dir: string, name: string)
    ensures EndsWith(Join(dir, name), name)
  {
    var p := Join(dir, name);
    if |dir| == 0 || IsSep(dir[|dir| - 1]) {
      assert p == dir + name;
    } else {
      assert p == (dir + "\\") + name;
    }
  }

  /** The result-file naming convention: the original base name with
      `_result` inserted before its extension. */
  function ResultName(name: string): string
  {
    Stem(name) + "_result" + Ext(name)
  }

  /** A result name keeps the original extension, and its stem is the original
      stem followed by `_result`. */
  lemma ResultNameKeepsExtension(name: string)
    ensures Stem(ResultName(name)) == Stem(name) + "_result"
    ensures Ext(ResultName(name)) == Ext(name)
  {
    if Ext(name) == [] {
      ResultNameWithoutExt(name);
    } else {
      ResultNameWithExt(name);
    }
  }

  lemma ResultNameWithoutExt(name: string)
    requires Ext(name) == []
    ensures SplitExt(name + "_result") == (name + "_result", "")
  {
    var q := name + "_result";
    var s := RFind(name, IsSep);
    var d := RFind(name, IsDot);
    assert !(d > s && HasNonDotBetween(name, s, d));
    RFindUnique(q, IsSep, s);
    RFindUnique(q, IsDot, d);
  }

  lemma ResultNameWithExt(name: string)
    requires Ext(name) != []
    ensures SplitExt(Stem(name) + "_result" + Ext(name)) == (Stem(name) + "_result", Ext(name))
  {
    var b, e := Stem(name), Ext(name);
    var s, k := ExtensionSplit(name);
    var front := b + "_result";
    var q := front + e;
    ExtensionLastHits(front, e);
    RFindUnique("_result", IsSep, -1);
    RFindConcat(b, "_result", IsSep);
    assert q[k] == b[k];
    assert q[..|front|] == front && q[|front|..] == e;
    SplitExtAt(q, s, |front|, k);
  }

  /** What a non-empty extension says about its name: the last separator `s`
      comes before the stem's end, with a non-dot at `k` in between. */
  lemma ExtensionSplit(name: string) returns (s: int, k: int)
    requires Ext(name) != []
    ensures s == RFind(Stem(name), IsSep)
    ensures s < k < |Stem(name)| && !IsDot(Stem(name)[k])
  {
    s := RFind(name, IsSep);
    var d := RFind(name, IsDot);
    assert d > s && HasNonDotBetween(name, s, d);
    var b, e := name[..d], name[d..];
    assert Stem(name) == b && Ext(name) == e && name == b + e;
    ExtensionLastHits(b, e);
    k :| s < k < d && !IsDot(name[k]);
    assert b[k] == name[k];
  }

  /** `splitext` cuts where the last dot is, when a non-dot lies between the last separator and it. */
  lemma SplitExtAt(q: string, s: int, d: int, k: int)
    requires RFind(q, IsSep) == s && RFind(q, IsDot) == d
    requires s < k < d && !IsDot(q[k])
    ensures SplitExt(q) == (q[..d], q[d..])
  {
  }

  /** Behind an extension, the last separator is the front's and the last dot starts the extension. */
  lemma ExtensionLastHits(front: string, e: string)
    requires |e| > 0 && e[0] == '.'
    requires forall k :: 1 <= k < |e| ==> !IsDot(e[k]) && !IsSep(e[k])
    ensures RFind(front + e, IsSep) == RFind(front, IsSep)
    ensures RFind(front + e, IsDot) == |front|
  {
    RFindUnique(e, IsSep, -1);
    RFindUnique(e, IsDot, 0);
    RFindConcat(front, e, IsSep);
    RFindConcat(front, e, IsDot);
  }

  /** The last hit in a concatenation is the last hit of its second part, or failing that of its first. */
  lemma RFindConcat(x: string, y: string, q: char -> bool)
    ensures RFind(y, q) >= 0 ==> RFind(x + y, q) == |x| + RFind(y, q)
    ensures RFind(y, q) < 0 ==> RFind(x + y, q) == RFind(x, q)
  {
    var xy := x + y;
    var ry := RFind(y, q);
    if ry >= 0 {
      assert xy[|x| + ry] == y[ry];
      forall k | |x| + ry < k < |xy|
        ensures !q(xy[k])
      {
        assert xy[k] == y[k - |x|];
      }
      RFindUnique(xy, q, |x| + ry);
    } else {
      var rx := RFind(x, q);
      forall k | rx < k < |xy|
        ensures !q(xy[k])
      {
        if k < |x| {
          assert xy[k] == x[k];
        } else {
          assert xy[k] == y[k - |x|];
        }
      }
      if rx >= 0 {
        assert xy[rx] == x[rx];
      }
      RFindUnique(xy, q, rx);
    }
  }
}
