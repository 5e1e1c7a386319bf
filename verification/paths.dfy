/**
 * The lexical path operations of Go's `path/filepath` on a Unix host
 * (separator '/'): `Clean`, `Join`, `Rel` and `Dir`. A path is read as
 * `strings.Split(s, "/")`; `Clean` applies the Plan 9 rules element by element
 * (drop empty and "." elements, let ".." cancel the name before it, drop ".."
 * at the root) and prints the result, "." or "/" when nothing is left.
 */
module Paths {
  import opened Wrappers

  const SEP: char := '/'

  /** A path as its rootedness and its name elements. */
  datatype Path = Path(rooted: bool, segs: seq<string>)

  /** `Rel` cannot express the target relative to the base. */
  datatype PathError = NotRelative

  predicate IsRooted(s: string) {
    |s| > 0 && s[0] == SEP
  }

  /** `strings.Split(s, "/")`: the texts between separators, empty ones included. */
  function Split(s: string): (parts: seq<string>)
    ensures |parts| >= 1
    ensures forall i :: 0 <= i < |parts| ==> SEP !in parts[i]
    decreases |s|
  {
    if |s| == 0 then [""]
    else
      var rest := Split(s[1..]);
      if s[0] == SEP then [""] + rest
      else [[s[0]] + rest[0]] + rest[1..]
  }

  /** One element of the lexical rules applied to the elements kept so far. */
  function Step(rooted: bool, stack: seq<string>, seg: string): seq<string> {
    if seg == "" || seg == "." then stack
    else if seg == ".." then
      if |stack| > 0 && stack[|stack| - 1] != ".." then stack[..|stack| - 1]
      else if rooted then stack
      else stack + [".."]
    else stack + [seg]
  }

  /** The elements kept after applying Step to each of `segs`, left to right. */
  function Resolve(rooted: bool, stack: seq<string>, segs: seq<string>): seq<string>
    decreases |segs|
  {
    if |segs| == 0 then stack
    else Resolve(rooted, Step(rooted, stack, segs[0]), segs[1..])
  }

  function CleanPath(s: string): Path {
    Path(IsRooted(s), Resolve(IsRooted(s), [], Split(s)))
  }

  function JoinSegs(segs: seq<string>): (r: string)
    requires |segs| > 0
    ensures |r| >= |segs[0]|
    decreases |segs|
  {
    if |segs| == 1 then segs[0] else segs[0] + [SEP] + JoinSegs(segs[1..])
  }

  function Render(p: Path): string {
    if |p.segs| == 0 then (if p.rooted then "/" else ".")
    else if p.rooted then [SEP] + JoinSegs(p.segs)
    else JoinSegs(p.segs)
  }

  /** `filepath.Clean`: never empty; a clean path is its own Clean. */
  function Clean(s: string): (r: string)
    ensures r != ""
  {
    CleanIsNormal(s);
    Render(CleanPath(s))
  }

  /** `filepath.Join(elem, elem2)`: empty elements are ignored; "" only when both are empty. */
  function Join(elem: string, elem2: string): (r: string)
    ensures r == "" <==> elem == "" && elem2 == ""
  {
    if elem != "" then Clean(elem + [SEP] + elem2)
    else if elem2 != "" then Clean(elem2)
    else ""
  }

  /** The length of the longest common prefix of two element lists. */
  function CommonPrefix(a: seq<string>, b: seq<string>): (k: nat)
    ensures k <= |a| && k <= |b|
    ensures a[..k] == b[..k]
    ensures k < |a| && k < |b| ==> a[k] != b[k]
    decreases |a|
  {
    if |a| == 0 || |b| == 0 || a[0] != b[0] then 0
    else
      var k := CommonPrefix(a[1..], b[1..]);
      assert a[..k + 1] == [a[0]] + a[1..][..k];
      assert b[..k + 1] == [b[0]] + b[1..][..k];
      1 + k
  }

  function Ups(n: nat): (r: seq<string>)
    ensures |r| == n && forall i :: 0 <= i < n ==> r[i] == ".."
  {
    seq(n, _ => "..")
  }

  /**
   * `filepath.Rel`: "." for equal cleaned paths; an error when only one is
   * rooted or when the base still has a ".." past the common prefix;
   * otherwise one ".." per remaining base element, then the rest of the target.
   * A target of "." is kept as it is, after the ".." elements ("../.").
   */
  function Rel(basepath: string, targpath: string): Result<string, PathError> {
    var base, targ := CleanPath(basepath), CleanPath(targpath);
    if Render(targ) == Render(base) then Success(".")
    else if base.rooted != targ.rooted then Failure(NotRelative)
    else
      var k := CommonPrefix(base.segs, targ.segs);
      if k < |base.segs| && base.segs[k] == ".." then Failure(NotRelative)
      else if !targ.rooted && |targ.segs| == 0 then Success(Render(Path(false, Ups(|base.segs|))) + "/.")
      else Success(Render(Path(false, Ups(|base.segs| - k) + targ.segs[k..])))
  }

  /** The index of the last separator, or -1. */
  function LastSep(s: string): (i: int)
    ensures -1 <= i < |s|
    ensures i >= 0 ==> s[i] == SEP
    ensures forall j :: i < j < |s| ==> s[j] != SEP
    decreases |s|
  {
    if |s| == 0 then -1
    else if s[|s| - 1] == SEP then |s| - 1
    else LastSep(s[..|s| - 1])
  }

  /** `filepath.Dir`: everything up to the last separator, cleaned. */
  function Dir(path: string): string {
    Clean(path[..LastSep(path) + 1])
  }

  /** The last element of a cleaned path ("/" or "." when it has none). */
  function LastElement(path: string): string {
    var p := CleanPath(path);
    if |p.segs| == 0 then Render(p) else p.segs[|p.segs| - 1]
  }

  /** `other` lies at or under `root`, lexically. */
  predicate Within(root: string, other: string) {
    var r, o := CleanPath(root), CleanPath(other);
    r.rooted == o.rooted && r.segs <= o.segs
  }

  /** A relative path whose first element is "..": it climbs out of its base. */
  predicate Climbs(rel: string) {
    Split(rel)[0] == ".."
  }

  // ---------------------------------------------------------------------------
  // Normal form of cleaned paths
  // ---------------------------------------------------------------------------

  /** Elements are names or "..", all ".." come first, and a rooted path has none. */
  ghost predicate NormalSegs(rooted: bool, segs: seq<string>) {
    && (forall i :: 0 <= i < |segs| ==> segs[i] != "" && segs[i] != "." && SEP !in segs[i])
    && (forall i, j :: 0 <= i < j < |segs| && segs[j] == ".." ==> segs[i] == "..")
    && (rooted ==> forall i :: 0 <= i < |segs| ==> segs[i] != "..")
  }

  lemma StepNormal(rooted: bool, stack: seq<string>, seg: string)
    requires NormalSegs(rooted, stack) && SEP !in seg
    ensures NormalSegs(rooted, Step(rooted, stack, seg))
  {
    if seg == ".." && !(|stack| > 0 && stack[|stack| - 1] != "..") && !rooted {
      var s := stack + [".."];
      forall i, j | 0 <= i < j < |s| && s[j] == ".." ensures s[i] == ".." {
        if j == |s| - 1 && i < |stack| - 1 {
          assert stack[|stack| - 1] == "..";
        }
      }
    }
  }

  lemma {:induction false} ResolveNormal(rooted: bool, stack: seq<string>, segs: seq<string>)
    requires NormalSegs(rooted, stack)
    requires forall i :: 0 <= i < |segs| ==> SEP !in segs[i]
    ensures NormalSegs(rooted, Resolve(rooted, stack, segs))
    decreases |segs|
  {
    if |segs| > 0 {
      StepNormal(rooted, stack, segs[0]);
      ResolveNormal(rooted, Step(rooted, stack, segs[0]), segs[1..]);
    }
  }

  lemma CleanIsNormal(s: string)
    ensures NormalSegs(CleanPath(s).rooted, CleanPath(s).segs)
  {
    ResolveNormal(IsRooted(s), [], Split(s));
  }

  lemma {:induction false} SplitNoSep(s: string)
    requires SEP !in s
    ensures Split(s) == [s]
    decreases |s|
  {
    if |s| > 0 {
      SplitNoSep(s[1..]);
      assert [s[0]] + s[1..] == s;
    }
  }

  /** What Split does with one leading character, given the split of the rest. */
  function SplitFrontOf(c: char, x: seq<string>): seq<string>
    requires |x| > 0
  {
    if c == SEP then [""] + x else [[c] + x[0]] + x[1..]
  }

  lemma SplitFront(c: char, t: string)
    ensures Split([c] + t) == SplitFrontOf(c, Split(t))
  {
    assert ([c] + t)[1..] == t;
  }

  lemma SplitFrontAppend(c: char, x: seq<string>, y: seq<string>)
    requires |x| > 0
    ensures SplitFrontOf(c, x + y) == SplitFrontOf(c, x) + y
  {
    assert (x + y)[0] == x[0] && (x + y)[1..] == x[1..] + y;
  }

  /** Splitting at an inserted separator splits the two sides independently. */
  lemma {:induction false} SplitConcat(a: string, b: string)
    ensures Split(a + [SEP] + b) == Split(a) + Split(b)
    decreases |a|
  {
    if |a| == 0 {
      assert a + [SEP] + b == [SEP] + b;
      SplitFront(SEP, b);
    } else {
      var t := a[1..] + [SEP] + b;
      assert a + [SEP] + b == [a[0]] + t;
      assert a == [a[0]] + a[1..];
      SplitFront(a[0], t);
      SplitFront(a[0], a[1..]);
      SplitConcat(a[1..], b);
      SplitFrontAppend(a[0], Split(a[1..]), Split(b));
    }
  }

  lemma {:induction false} SplitJoinSegs(segs: seq<string>)
    requires |segs| > 0
    requires forall i :: 0 <= i < |segs| ==> SEP !in segs[i]
    ensures Split(JoinSegs(segs)) == segs
    decreases |segs|
  {
    if |segs| == 1 {
      SplitNoSep(segs[0]);
    } else {
      SplitNoSep(segs[0]);
      SplitJoinSegs(segs[1..]);
      SplitConcat(segs[0], JoinSegs(segs[1..]));
    }
  }

  lemma {:induction false} ResolveConcat(rooted: bool, stack: seq<string>, xs: seq<string>, ys: seq<string>)
    ensures Resolve(rooted, stack, xs + ys) == Resolve(rooted, Resolve(rooted, stack, xs), ys)
    decreases |xs|
  {
    if |xs| > 0 {
      assert (xs + ys)[1..] == xs[1..] + ys;
      ResolveConcat(rooted, Step(rooted, stack, xs[0]), xs[1..], ys);
    } else {
      assert xs + ys == ys;
    }
  }

  /** Elements already in normal form pass through Resolve unchanged. */
  lemma {:induction false} ResolveNormalIdentity(rooted: bool, stack: seq<string>, segs: seq<string>)
    requires NormalSegs(rooted, stack + segs)
    ensures Resolve(rooted, stack, segs) == stack + segs
    decreases |segs|
  {
    if |segs| > 0 {
      var all := stack + segs;
      assert all[|stack|] == segs[0];
      if segs[0] == ".." && |stack| > 0 {
        assert all[|stack| - 1] == "..";
      }
      assert Step(rooted, stack, segs[0]) == stack + [segs[0]];
      assert stack + [segs[0]] + segs[1..] == all;
      ResolveNormalIdentity(rooted, stack + [segs[0]], segs[1..]);
    } else {
      assert stack + segs == stack;
    }
  }

  lemma JoinSegsHead(segs: seq<string>)
    requires |segs| > 0 && segs[0] != ""
    ensures JoinSegs(segs)[0] == segs[0][0]
  {
    if |segs| > 1 {
      assert JoinSegs(segs) == segs[0] + ([SEP] + JoinSegs(segs[1..]));
    }
  }

  lemma CleanRenderNonEmpty(p: Path)
    requires NormalSegs(p.rooted, p.segs) && |p.segs| > 0
    ensures CleanPath(Render(p)) == p
  {
    var s, j := Render(p), JoinSegs(p.segs);
    assert [] + p.segs == p.segs;
    ResolveNormalIdentity(p.rooted, [], p.segs);
    SplitJoinSegs(p.segs);
    JoinSegsHead(p.segs);
    if p.rooted {
      assert s[1..] == j;
      assert Split(s) == [""] + p.segs;
      assert Resolve(true, [], Split(s)) == Resolve(true, [], p.segs);
    } else {
      assert s == j;
    }
  }

  /** Cleaning a rendered normal path gives the path back: Clean is idempotent. */
  lemma CleanRender(p: Path)
    requires NormalSegs(p.rooted, p.segs)
    ensures CleanPath(Render(p)) == p
  {
    if |p.segs| == 0 {
      if p.rooted {
        assert Split("/") == ["", ""];
      } else {
        SplitNoSep(".");
      }
    } else {
      CleanRenderNonEmpty(p);
    }
  }

  lemma CleanIdempotent(s: string)
    ensures Clean(Clean(s)) == Clean(s)
    ensures CleanPath(Clean(s)) == CleanPath(s)
  {
    CleanIsNormal(s);
    CleanRender(CleanPath(s));
  }

  /** Joining resolves the second path's elements on top of the cleaned first path. */
  lemma JoinResolves(root: string, p: string)
    requires root != ""
    ensures CleanPath(Join(root, p)) ==
      Path(IsRooted(root), Resolve(IsRooted(root), CleanPath(root).segs, Split(p)))
  {
    var s := root + [SEP] + p;
    assert IsRooted(s) == IsRooted(root);
    CleanIdempotent(s);
    SplitConcat(root, p);
    ResolveConcat(IsRooted(root), [], Split(root), Split(p));
  }

  // ---------------------------------------------------------------------------
  // Rel of a joined path
  // ---------------------------------------------------------------------------

  predicate AllUps(d: seq<string>) {
    forall i :: 0 <= i < |d| ==> d[i] == ".."
  }

  /** A leading run of ".." is never cancelled by later elements. */
  lemma {:induction false} ResolveKeepsUps(rooted: bool, d: seq<string>, stack: seq<string>, segs: seq<string>)
    requires AllUps(d) && d <= stack
    ensures d <= Resolve(rooted, stack, segs)
    decreases |segs|
  {
    if |segs| > 0 {
      var next := Step(rooted, stack, segs[0]);
      if segs[0] == ".." && |stack| > 0 && stack[|stack| - 1] != ".." {
        assert |stack| > |d|;
        assert d <= next;
      } else {
        assert d <= next;
      }
      ResolveKeepsUps(rooted, d, next, segs[1..]);
    }
  }

  /** Without "..", Resolve only appends to what it starts from. */
  lemma {:induction false} ResolveExtends(rooted: bool, stack: seq<string>, segs: seq<string>)
    requires forall i :: 0 <= i < |segs| ==> segs[i] != ".."
    ensures stack <= Resolve(rooted, stack, segs)
    ensures forall i :: |stack| <= i < |Resolve(rooted, stack, segs)| ==> Resolve(rooted, stack, segs)[i] != ".."
    decreases |segs|
  {
    if |segs| > 0 {
      var next := Step(rooted, stack, segs[0]);
      ResolveExtends(rooted, next, segs[1..]);
    }
  }

  /** The number of leading ".." elements. */
  function LeadingUps(segs: seq<string>): (u: nat)
    ensures u <= |segs| && AllUps(segs[..u])
    ensures u < |segs| ==> segs[u] != ".."
    decreases |segs|
  {
    if |segs| > 0 && segs[0] == ".." then
      var u := LeadingUps(segs[1..]);
      assert segs[..u + 1] == [segs[0]] + segs[1..][..u];
      1 + u
    else 0
  }

  /**
   * Rel of a root and anything joined onto it never fails: the join keeps the
   * root's rootedness and its leading "..", so no ".." of the base is left over.
   */
  lemma RelOfJoinSucceeds(root: string, p: string)
    requires root != ""
    ensures Rel(root, Join(root, p)).Success?
  {
    var base, targ := CleanPath(root), CleanPath(Join(root, p));
    JoinResolves(root, p);
    CleanIsNormal(root);
    var u := LeadingUps(base.segs);
    ResolveKeepsUps(base.rooted, base.segs[..u], base.segs, Split(p));
    RelSucceedsWhenUpsShared(root, Join(root, p));
  }

  /**
   * Rel succeeds when both sides agree on rootedness and the target starts
   * with the base's leading "..": past them the base has no "..".
   */
  lemma RelSucceedsWhenUpsShared(basepath: string, targpath: string)
    requires var base, targ := CleanPath(basepath), CleanPath(targpath);
      base.rooted == targ.rooted && base.segs[..LeadingUps(base.segs)] <= targ.segs
    ensures Rel(basepath, targpath).Success?
  {
    var base, targ := CleanPath(basepath), CleanPath(targpath);
    CleanIsNormal(basepath);
    NoUpsPastLeading(base.rooted, base.segs);
    var u := LeadingUps(base.segs);
    var k := CommonPrefix(base.segs, targ.segs);
    CommonPrefixCovers(base.segs, targ.segs, u);
    RelSucceedsIf(basepath, targpath);
  }

  /** A prefix shared by both lists is inside their common prefix. */
  lemma {:induction false} CommonPrefixCovers(a: seq<string>, b: seq<string>, u: nat)
    requires u <= |a| && a[..u] <= b
    ensures CommonPrefix(a, b) >= u
    decreases u
  {
    if u > 0 {
      assert a[0] == a[..u][0] == b[0];
      assert a[1..][..u - 1] == a[..u][1..] <= b[1..];
      CommonPrefixCovers(a[1..], b[1..], u - 1);
    }
  }

  lemma NoUpsPastLeading(rooted: bool, segs: seq<string>)
    requires NormalSegs(rooted, segs)
    ensures forall i :: LeadingUps(segs) <= i < |segs| ==> segs[i] != ".."
  {
  }

  lemma RelSucceedsIf(basepath: string, targpath: string)
    requires var base, targ := CleanPath(basepath), CleanPath(targpath);
      var k := CommonPrefix(base.segs, targ.segs);
      base.rooted == targ.rooted && (k >= |base.segs| || base.segs[k] != "..")
    ensures Rel(basepath, targpath).Success?
  {
  }

  /** Rel of a path under the root, whose extra elements hold no "..", does not climb. */
  lemma RelOfExtension(root: string, other: string)
    requires Within(root, other)
    requires var b, t := CleanPath(root).segs, CleanPath(other).segs;
      forall i :: |b| <= i < |t| ==> t[i] != ".."
    ensures Rel(root, other).Success? && !Climbs(Rel(root, other).value)
  {
    var base, targ := CleanPath(root), CleanPath(other);
    var k := CommonPrefix(base.segs, targ.segs);
    assert k == |base.segs|;
    var rest := targ.segs[k..];
    SplitNoSep(".");
    if Render(targ) != Render(base) {
      assert Ups(0) + rest == rest;
      if |rest| > 0 {
        CleanIsNormal(other);
        SplitJoinSegs(rest);
        assert rest[0] == targ.segs[k];
      }
    }
  }

  /**
   * Confinement holds for requests without "..": the join lies under the
   * root and Rel reports a path that does not climb out of it.
   */
  lemma JoinConfined(root: string, p: string)
    requires root != ""
    requires forall i :: 0 <= i < |Split(p)| ==> Split(p)[i] != ".."
    ensures Within(root, Join(root, p))
    ensures Rel(root, Join(root, p)).Success? && !Climbs(Rel(root, Join(root, p)).value)
  {
    JoinResolves(root, p);
    ResolveExtends(IsRooted(root), CleanPath(root).segs, Split(p));
    RelOfExtension(root, Join(root, p));
  }

  lemma SplitExamples()
    ensures Split("/r") == ["", "r"] && Split("/x") == ["", "x"]
    ensures Split("../x") == ["..", "x"] && Split("/r/../x") == ["", "r", "..", "x"]
  {
    assert "/r" + [SEP] + "../x" == "/r/../x";
    assert "" + [SEP] + "r" == "/r";
    assert "" + [SEP] + "x" == "/x";
    assert ".." + [SEP] + "x" == "../x";
    SplitNoSep("");
    SplitNoSep("r");
    SplitNoSep("x");
    SplitNoSep("..");
    SplitConcat("", "r");
    SplitConcat("", "x");
    SplitConcat("..", "x");
    SplitConcat("/r", "../x");
  }

  lemma ResolveExamples()
    ensures Resolve(true, [], ["", "r", "..", "x"]) == ["x"]
    ensures Resolve(true, [], ["", "r"]) == ["r"]
    ensures Resolve(true, [], ["", "x"]) == ["x"]
  {
    assert ["", "r", "..", "x"][1..] == ["r", "..", "x"];
    assert ["r", "..", "x"][1..] == ["..", "x"];
    assert ["..", "x"][1..] == ["x"];
    assert ["", "r"][1..] == ["r"];
    assert ["", "x"][1..] == ["x"];
    assert Step(true, [], "") == [];
    assert Step(true, [], "r") == ["r"];
    assert Step(true, ["r"], "..") == [];
    assert Step(true, [], "x") == ["x"];
  }

  lemma CleanPathExamples()
    ensures CleanPath("/r") == Path(true, ["r"]) && CleanPath("/x") == Path(true, ["x"])
    ensures CleanPath("/r/../x") == Path(true, ["x"])
  {
    SplitExamples();
    ResolveExamples();
  }

  lemma JoinExample()
    ensures Join("/r", "../x") == "/x"
    ensures CleanPath("/r") == Path(true, ["r"]) && CleanPath("/x") == Path(true, ["x"])
  {
    CleanPathExamples();
    assert "/r" + [SEP] + "../x" == "/r/../x";
    assert Render(Path(true, ["x"])) == "/x";
  }

  lemma RelExample()
    ensures Rel("/r", "/x") == Success("../x")
  {
    JoinExample();
    var base, targ := CleanPath("/r"), CleanPath("/x");
    assert Render(targ) == "/x" && Render(base) == "/r";
    assert CommonPrefix(["r"], ["x"]) == 0;
    assert Ups(1) + ["x"][0..] == ["..", "x"];
    assert JoinSegs(["..", "x"]) == "../x";
  }

  /** A target of "." is not cleaned away: Rel("a", ".") is "../.". */
  lemma RelDotTarget()
    ensures Rel("a", ".") == Success("../.")
  {
    SplitNoSep("a");
    SplitNoSep(".");
    var base, targ := CleanPath("a"), CleanPath(".");
    assert Resolve(false, [], ["a"]) == ["a"];
    assert Resolve(false, [], ["."]) == [];
    assert base == Path(false, ["a"]) && targ == Path(false, []);
    assert Render(base) == "a" != "." == Render(targ);
    assert CommonPrefix(base.segs, targ.segs) == 0;
    assert Ups(1) == [".."];
    assert Render(Path(false, [".."])) == "..";
    assert ".." + "/." == "../.";
  }

  /** The check's relative path is not a guard: "../x" under "/r" climbs to "/x". */
  lemma EscapeExample()
    ensures Join("/r", "../x") == "/x"
    ensures !Within("/r", Join("/r", "../x"))
    ensures Rel("/r", Join("/r", "../x")) == Success("../x")
    ensures Climbs("../x")
  {
    JoinExample();
    RelExample();
    SplitExamples();
  }
}
