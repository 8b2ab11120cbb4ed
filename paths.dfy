/** The parts of `pathlib.PurePosixPath` the writer uses to name the data
    file beside a header: the path's components, its last component, that
    component's suffix, and the path with the suffix replaced. A path is
    parsed as pathlib parses it: repeated and trailing slashes and `.`
    components are dropped, and a leading `/` or `//` is the root. */
module Paths {
  import opened Wrappers

  /** The index of the last `c` in `s`, or -1 when there is none. */
  function FindLast(s: string, c: char): (k: int)
    ensures -1 <= k < |s|
    ensures k >= 0 ==> s[k] == c
  {
    if s == [] then -1
    else if s[|s| - 1] == c then |s| - 1
    else FindLast(s[..|s| - 1], c)
  }

  predicate NoSlash(s: string) {
    forall i :: 0 <= i < |s| ==> s[i] != '/'
  }

  /** A component pathlib keeps: not empty, not `.`, and without `/`. */
  predicate IsPart(c: string) {
    c != "" && c != "." && NoSlash(c)
  }

  /** The text between two slashes, as a list of at most one component. */
  function Keep(c: string): seq<string> {
    if c == "" || c == "." then [] else [c]
  }

  /** The components of a path, in order: the text between slashes, without
      the empty ones and `.` (`PurePath.parts` without the root). */
  function Parts(p: string): seq<string> {
    Scan(p, "")
  }

  /** The components of `p`, the text `cur` of the current one read before. */
  function Scan(p: string, cur: string): seq<string> {
    if p == [] then Keep(cur)
    else if p[0] == '/' then Keep(cur) + Scan(p[1..], "")
    else Scan(p[1..], cur + [p[0]])
  }

  /** Every component is one pathlib keeps, and no longer than the path. */
  lemma PartsAreParts(p: string)
    ensures forall i :: 0 <= i < |Parts(p)| ==> IsPart(Parts(p)[i]) && |Parts(p)[i]| <= |p|
  {
    ScanParts(p, "");
  }

  lemma {:induction false} ScanParts(p: string, cur: string)
    requires NoSlash(cur)
    ensures forall i :: 0 <= i < |Scan(p, cur)| ==> IsPart(Scan(p, cur)[i]) && |Scan(p, cur)[i]| <= |cur| + |p|
  {
    if p != [] {
      if p[0] == '/' {
        ScanParts(p[1..], "");
      } else {
        var next := cur + [p[0]];
        assert forall i :: 0 <= i < |next| ==> next[i] != '/';
        ScanParts(p[1..], next);
      }
    }
  }

  /** The root: `//` kept as written, any other run of leading slashes `/`. */
  function Root(p: string): string {
    if |p| >= 2 && p[0] == '/' && p[1] == '/' && (|p| == 2 || p[2] != '/') then "//"
    else if |p| >= 1 && p[0] == '/' then "/"
    else ""
  }

  /** Components joined by single slashes. */
  function Join(cs: seq<string>): string {
    if cs == [] then ""
    else if |cs| == 1 then cs[0]
    else Join(cs[..|cs| - 1]) + "/" + cs[|cs| - 1]
  }

  /** `str` of a path with the given root and components: `.` for the
      empty relative path. */
  function Format(root: string, cs: seq<string>): string {
    if root == "" && cs == [] then "." else root + Join(cs)
  }

  /** `PurePath.name`: the last component, or the empty name of a path
      without components (`""`, `.`, `/`). */
  function Name(p: string): (n: string)
    ensures |n| <= |p| && NoSlash(n)
    ensures n == "" <==> Parts(p) == []
    ensures n != "" ==> IsPart(n) && n == Parts(p)[|Parts(p)| - 1]
  {
    PartsAreParts(p);
    var cs := Parts(p);
    if cs == [] then "" else cs[|cs| - 1]
  }

  /** `PurePath.suffix`: the name's last `.`-extension, when that dot is
      neither the name's first nor its last character. */
  function Suffix(p: string): (s: string)
    ensures |s| <= |Name(p)|
  {
    var n := Name(p);
    var j := FindLast(n, '.');
    if 0 < j < |n| - 1 then n[j..] else ""
  }

  /** `PurePath.with_suffix(s)`: the path with its last component's suffix
      replaced by `s`, or `ValueError` for a path with an empty name. */
  function WithSuffix(p: string, s: string): Result<string> {
    var n := Name(p);
    if n == "" then Failure(Error(ValueError, EmptyName))
    else
      var cs := Parts(p);
      Success(Format(Root(p), cs[..|cs| - 1] + [n[..|n| - |Suffix(p)|] + s]))
  }

  /** A trailing slash does not change the name: `out/` names `out`. */
  lemma NameTrailingSlash(p: string)
    ensures Name(p + "/") == Name(p)
  {
    PartsOfSlash(p, "");
    assert p + "/" + "" == p + "/";
  }

  /** The paths without a component have the empty name. */
  lemma EmptyNames()
    ensures Name("") == "" && Name(".") == "" && Name("/") == ""
  {
    DotParts();
    SlashParts("");
    assert "/" + "" == "/";
  }

  /** The name of the default data file is the header's name with its
      suffix replaced (`img.mhd` gives `img.raw`), and the directory is
      kept; a path with an empty name is a `ValueError`. */
  lemma SiblingName(p: string, s: string)
    requires |s| >= 2 && s[0] == '.' && NoSlash(s)
    ensures WithSuffix(p, s).Success? <==> Name(p) != ""
    ensures WithSuffix(p, s).Failure? ==> WithSuffix(p, s).error == Error(ValueError, EmptyName)
    ensures WithSuffix(p, s).Success? ==>
      var q := WithSuffix(p, s).value;
      && Name(q) == Name(p)[..|Name(p)| - |Suffix(p)|] + s
      && Root(q) == Root(p)
      && Parts(q)[..|Parts(q)| - 1] == Parts(p)[..|Parts(p)| - 1]
  {
    var n := Name(p);
    if n != "" {
      var cs := Parts(p);
      var part := n[..|n| - |Suffix(p)|] + s;
      StemPart(n[..|n| - |Suffix(p)|], s);
      var ds := cs[..|cs| - 1] + [part];
      PartsAreParts(p);
      assert forall i :: 0 <= i < |ds| ==> IsPart(ds[i]);
      FormatParts(Root(p), ds);
      assert ds[..|ds| - 1] == cs[..|cs| - 1];
    }
  }

  /** A stem followed by a suffix without `/` is a component. */
  lemma StemPart(stem: string, s: string)
    requires NoSlash(stem) && |s| >= 2 && NoSlash(s)
    ensures IsPart(stem + s)
  {
    var part := stem + s;
    forall i | 0 <= i < |part|
      ensures part[i] != '/'
    {
      if i >= |stem| {
        assert part[i] == s[i - |stem|];
      }
    }
  }

  /** A path printed from a root and components parses back to them. */
  lemma FormatParts(root: string, cs: seq<string>)
    requires root == "" || root == "/" || root == "//"
    requires forall i :: 0 <= i < |cs| ==> IsPart(cs[i])
    ensures Parts(Format(root, cs)) == cs
    ensures Root(Format(root, cs)) == root
  {
    JoinParts(cs);
    JoinStart(cs);
    if root == "" && cs == [] {
      DotParts();
    } else {
      RootParts(root, Join(cs));
      RootOf(root, Join(cs));
    }
  }

  lemma DotParts()
    ensures Parts(".") == [] && Root(".") == ""
  {
    assert Scan(".", "") == Scan("", ".");
  }

  /** A root adds no component. */
  lemma RootParts(root: string, j: string)
    requires root == "" || root == "/" || root == "//"
    ensures Parts(root + j) == Parts(j)
  {
    if root == "/" {
      SlashParts(j);
    } else if root == "//" {
      DoubleSlashParts(j);
    } else {
      assert root + j == j;
    }
  }

  lemma DoubleSlashParts(j: string)
    ensures Parts("//" + j) == Parts(j)
  {
    SlashParts("/" + j);
    SlashParts(j);
    assert "/" + ("/" + j) == "//" + j;
  }

  /** A leading slash adds no component. */
  lemma SlashParts(j: string)
    ensures Parts("/" + j) == Parts(j)
  {
    PartsOfSlash("", j);
    assert "" + "/" + j == "/" + j;
    EmptyParts();
  }

  lemma EmptyParts()
    ensures Parts("") == []
  {
  }

  /** A root followed by text that does not start with `/` is read back. */
  lemma RootOf(root: string, j: string)
    requires root == "" || root == "/" || root == "//"
    requires root != "" || j != ""
    requires j != "" ==> j[0] != '/'
    ensures Root(root + j) == root
  {
  }

  /** Joined components parse back to themselves. */
  lemma {:induction false} JoinParts(cs: seq<string>)
    requires forall i :: 0 <= i < |cs| ==> IsPart(cs[i])
    ensures Parts(Join(cs)) == cs
  {
    if |cs| >= 1 {
      var last := cs[|cs| - 1];
      ScanNoSlash(last, "");
      assert "" + last == last;
      if |cs| > 1 {
        var init := cs[..|cs| - 1];
        JoinParts(init);
        PartsOfSlash(Join(init), last);
        assert cs == init + [last];
      }
    }
  }

  /** Text without a slash continues the current component. */
  lemma {:induction false} ScanNoSlash(p: string, cur: string)
    requires NoSlash(p)
    ensures Scan(p, cur) == Keep(cur + p)
  {
    if p != [] {
      assert p[0] != '/';
      ScanNoSlash(p[1..], cur + [p[0]]);
      assert cur + [p[0]] + p[1..] == cur + p;
    } else {
      assert cur + p == cur;
    }
  }

  /** Joined components do not start with a slash. */
  lemma {:induction false} JoinStart(cs: seq<string>)
    requires forall i :: 0 <= i < |cs| ==> IsPart(cs[i])
    ensures Join(cs) == "" <==> cs == []
    ensures Join(cs) != "" ==> Join(cs)[0] != '/'
  {
    if |cs| > 1 {
      JoinStart(cs[..|cs| - 1]);
    }
  }

  /** Splitting at a slash splits the components. */
  lemma PartsOfSlash(a: string, b: string)
    ensures Parts(a + "/" + b) == Parts(a) + Parts(b)
  {
    ScanOfSlash(a, b, "");
  }

  lemma {:induction false} ScanOfSlash(a: string, b: string, cur: string)
    ensures Scan(a + "/" + b, cur) == Scan(a, cur) + Scan(b, "")
  {
    if a == [] {
      assert a + "/" + b == "/" + b;
      assert ("/" + b)[1..] == b;
    } else {
      assert (a + "/" + b)[0] == a[0];
      assert (a + "/" + b)[1..] == a[1..] + "/" + b;
      if a[0] == '/' {
        ScanOfSlash(a[1..], b, "");
      } else {
        ScanOfSlash(a[1..], b, cur + [a[0]]);
      }
    }
  }
}
