/** The part of `pathlib` that the converter relies on, for POSIX paths.
    A path is the sequence of its components; an absolute path lists them from the root. */
module Paths {

  import opened Wrappers

  type Path = seq<string>

  /** A component as pathlib stores it: not empty, not ".", no separator. */
  predicate IsComponent(c: string) {
    c != "" && c != "." && '/' !in c
  }

  predicate WellFormed(p: Path) {
    forall i :: 0 <= i < |p| ==> IsComponent(p[i])
  }

  /** Length of the first name in `s`, i.e. of the prefix before the first '/'. */
  function NameLength(s: string): (n: nat)
    ensures n <= |s|
    ensures forall j :: 0 <= j < n ==> s[j] != '/'
    ensures n < |s| ==> s[n] == '/'
  {
    if s == [] || s[0] == '/' then 0 else 1 + NameLength(s[1..])
  }

  /** The components pathlib parses out of a path string: separators are
      collapsed and "." components dropped ("a//./b" has components a, b). */
  function Split(s: string): (p: Path)
    ensures WellFormed(p)
    decreases |s|
  {
    if s == [] then []
    else if s[0] == '/' then Split(s[1..])
    else
      var n := NameLength(s);
      if s[..n] == "." then Split(s[n..]) else [s[..n]] + Split(s[n..])
  }

  /** The components joined by '/'. */
  function Join(p: Path): string {
    if p == [] then ""
    else if |p| == 1 then p[0]
    else p[0] + "/" + Join(p[1..])
  }

  /** `str()` of a relative path: the empty relative path prints as ".". */
  function RelStr(p: Path): string {
    if p == [] then "." else Join(p)
  }

  /** `str()` of an absolute path. */
  function AbsStr(p: Path): string {
    "/" + Join(p)
  }

  /** `base / s` for a path string `s`: an absolute `s` replaces `base`. */
  function Append(base: Path, s: string): (r: Path)
    ensures WellFormed(base) ==> WellFormed(r)
  {
    if |s| > 0 && s[0] == '/' then Split(s) else base + Split(s)
  }

  /** `p.relative_to(base)`; `None` where pathlib raises ValueError. */
  function RelativeTo(p: Path, base: Path): (r: Option<Path>)
    ensures r.Some? <==> base <= p
    ensures r.Some? ==> base + r.value == p
  {
    if base <= p then Some(p[|base|..]) else None
  }

  /** `p.parent`: the root is its own parent. */
  function Parent(p: Path): (r: Path)
    ensures p != [] ==> r + [p[|p| - 1]] == p
    ensures p == [] ==> r == []
  {
    if p == [] then [] else p[..|p| - 1]
  }

  /** `p.name`: the last component, "" for the root. */
  function Name(p: Path): string {
    if p == [] then "" else p[|p| - 1]
  }

  /** Index of the last '.' in `s`, -1 if there is none (`str.rfind('.')`). */
  function LastDot(s: string): (i: int)
    ensures -1 <= i < |s|
    ensures i >= 0 ==> s[i] == '.'
    ensures forall j :: i < j < |s| ==> s[j] != '.'
  {
    if s == [] then -1
    else if s[|s| - 1] == '.' then |s| - 1
    else LastDot(s[..|s| - 1])
  }

  /** `PurePath.suffix` of a name: from its last '.' on, provided that dot is
      neither the first nor the last character; otherwise "". */
  function Suffix(name: string): (r: string)
    ensures r == "" || (|r| >= 2 && r[0] == '.' && |r| < |name| && name[|name| - |r|..] == r)
    ensures r != "" ==> forall j :: 1 <= j < |r| ==> r[j] != '.'
  {
    var i := LastDot(name);
    if 0 < i < |name| - 1 then name[i..] else ""
  }

  /** Appending a single component adds exactly that component. */
  lemma AppendComponent(base: Path, s: string)
    requires IsComponent(s)
    ensures Append(base, s) == base + [s]
  {
    NameOnly(s);
  }

  lemma NameOnly(s: string)
    requires IsComponent(s)
    ensures Split(s) == [s]
  {
    NameLengthOfName(s, "");
    assert s[..|s|] == s;
    assert s[|s|..] == [];
  }

  lemma {:induction false} NameLengthOfName(a: string, b: string)
    requires forall j :: 0 <= j < |a| ==> a[j] != '/'
    requires b == [] || b[0] == '/'
    ensures NameLength(a + b) == |a|
    decreases |a|
  {
    if a == [] {
      assert a + b == b;
    } else {
      assert (a + b)[1..] == a[1..] + b;
      NameLengthOfName(a[1..], b);
    }
  }

  /** Printing a well-formed path and parsing it back gives the same components. */
  lemma {:induction false} SplitJoin(p: Path)
    requires WellFormed(p)
    ensures Split(Join(p)) == p
    decreases |p|
  {
    if |p| == 1 {
      NameOnly(p[0]);
    } else if |p| > 1 {
      var s := Join(p);
      var tail := "/" + Join(p[1..]);
      assert s == p[0] + tail;
      NameLengthOfName(p[0], tail);
      assert s[..|p[0]|] == p[0];
      assert s[|p[0]|..] == tail;
      assert tail[1..] == Join(p[1..]);
      SplitJoin(p[1..]);
      assert p == [p[0]] + p[1..];
    }
  }

  /** The suffix of "stem.ext" is ".ext" when ext has no dot. */
  lemma SuffixOfExtension(stem: string, ext: string)
    requires stem != "" && ext != ""
    requires forall j :: 0 <= j < |ext| ==> ext[j] != '.'
    ensures Suffix(stem + "." + ext) == "." + ext
  {
    var name := stem + "." + ext;
    var i := LastDot(name);
    assert name[|stem|] == '.';
    assert forall j :: |stem| < j < |name| ==> name[j] == ext[j - |stem| - 1];
    assert i == |stem|;
    assert name[i..] == "." + ext;
  }
}
