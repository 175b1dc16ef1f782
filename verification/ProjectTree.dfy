// CollectPaths and ExcludePaths of eclipse.py: which directories of a project tree the
// generated project leaves out.
module ProjectTree {
  import opened PosixPath
  import opened Sequences

  // ----- CollectPaths --------------------------------------------------------------------------

  function ParentPaths(path: string): seq<string>
    decreases |path|
  {
    var ret := Dirname(path);
    if ret == path || ret == "" then [] else [ret] + ParentPaths(ret)
  }

  function WithParents(path: string): seq<string> {
    [path] + ParentPaths(path)
  }

  function Members(q: seq<string>): set<string> {
    set x | x in q
  }

  function Collected(paths: seq<string>): set<string> {
    if paths == [] then {}
    else Collected(paths[..|paths| - 1]) + Members(WithParents(ForwardSlashes(paths[|paths| - 1])))
  }

  // Python's order of strings, by code points.
  predicate Before(a: string, b: string) {
    if a == "" || b == "" then a == "" && b != ""
    else if a[0] == b[0] then Before(a[1..], b[1..])
    else a[0] < b[0]
  }

  // A proper prefix comes first; else the first difference decides.
  lemma {:induction false} BeforeMeans(a: string, b: string)
    ensures Before(a, b) <==>
      exists k :: 0 <= k < |b| && k <= |a| && a[..k] == b[..k] && (k == |a| || a[k] < b[k])
  {
    if a != "" && b != "" && a[0] == b[0] {
      BeforeMeans(a[1..], b[1..]);
      if Before(a, b) {
        var k :| 0 <= k < |b[1..]| && k <= |a[1..]| && a[1..][..k] == b[1..][..k] && (k == |a[1..]| || a[1..][k] < b[1..][k]);
        assert a[..k + 1] == [a[0]] + a[1..][..k] && b[..k + 1] == [b[0]] + b[1..][..k];
        assert 0 <= k + 1 < |b| && a[..k + 1] == b[..k + 1] && (k + 1 == |a| || a[k + 1] < b[k + 1]);
      } else {
        forall k | 0 <= k < |b| && k <= |a| && a[..k] == b[..k] ensures !(k == |a| || a[k] < b[k]) {
          if k > 0 {
            assert a[1..][..k - 1] == a[..k][1..] && b[1..][..k - 1] == b[..k][1..];
          }
        }
      }
    } else {
      assert a[..0] == b[..0];
      if a != "" && b != "" {
        forall k | 0 < k < |b| && k <= |a| ensures a[..k] != b[..k] {
          assert a[..k][0] == a[0] && b[..k][0] == b[0];
        }
      }
    }
  }

  lemma {:induction false} BeforeTotal(a: string, b: string)
    ensures Before(a, b) || a == b || Before(b, a)
  {
    if a != "" && b != "" && a[0] == b[0] {
      BeforeTotal(a[1..], b[1..]);
      if a[1..] == b[1..] { assert [a[0]] + a[1..] == a && [b[0]] + b[1..] == b; }
    }
  }

  lemma {:induction false} BeforeTransitive(a: string, b: string, c: string)
    requires Before(a, b) && Before(b, c)
    ensures Before(a, c)
  {
    if a != "" && a[0] == b[0] == c[0] { BeforeTransitive(a[1..], b[1..], c[1..]); }
  }

  predicate Ascending(q: seq<string>) {
    forall i, j :: 0 <= i < j < |q| ==> Before(q[i], q[j])
  }

  method InsertInto(q: seq<string>, x: string) returns (r: seq<string>)
    requires Ascending(q) && x !in q
    ensures Ascending(r) && Members(r) == Members(q) + {x}
  {
    var i := 0;
    while i < |q| && Before(q[i], x)
      invariant i <= |q|
      invariant forall k :: 0 <= k < i ==> Before(q[k], x)
    {
      i := i + 1;
    }
    r := q[..i] + [x] + q[i..];
    forall k | i <= k < |q| ensures Before(x, q[k]) {
      BeforeTotal(q[i], x);
      if k > i { BeforeTransitive(x, q[i], q[k]); }
    }
    assert forall y :: y in r <==> y in q || y == x by {
      assert q == q[..i] + q[i..];
    }
  }

  // sorted(list(...)) of a set.
  method Sorted(all: set<string>) returns (r: seq<string>)
    ensures Ascending(r) && Members(r) == all
  {
    r := [];
    var rest := all;
    while rest != {}
      invariant Ascending(r) && Members(r) + rest == all && Members(r) !! rest
      decreases |rest|
    {
      var x :| x in rest;
      assert x !in Members(r);
      r := InsertInto(r, x);
      rest := rest - {x};
    }
  }

  // Each path and its parents once, in ascending order.
  method CollectPaths(paths: seq<string>) returns (ret: seq<string>)
    ensures Ascending(ret) && Members(ret) == Collected(paths)
  {
    var all := {};
    for i := 0 to |paths|
      invariant all == Collected(paths[..i])
    {
      var path := ForwardSlashes(paths[i]);
      all := all + Members([path] + ParentPaths(path));
      assert paths[..i + 1][..i] == paths[..i];
    }
    assert paths[..|paths|] == paths;
    ret := Sorted(all);
  }

  // Every directory above a used path counts as used.
  ghost predicate ClosedUpward(used: set<string>) {
    forall p :: p in used && Dirname(p) != p && Dirname(p) != "" ==> Dirname(p) in used
  }

  lemma {:induction false} ParentsClosed(path: string, p: string)
    requires p in WithParents(path) && Dirname(p) != p && Dirname(p) != ""
    ensures Dirname(p) in WithParents(path)
    decreases |path|
  {
    var d := Dirname(path);
    if p == path {
      assert ParentPaths(path) == [d] + ParentPaths(d);
    } else {
      assert d != path && d != "" && p in WithParents(d);
      ParentsClosed(d, p);
      assert WithParents(path) == [path] + WithParents(d);
    }
  }

  lemma DirnameIsPrefix(p: string)
    ensures Dirname(p) <= p
  {
  }

  lemma {:induction false} ParentsAreAbove(path: string, x: string)
    requires x in ParentPaths(path)
    ensures x != "" && x < path
    decreases |path|
  {
    var d := Dirname(path);
    DirnameIsPrefix(path);
    if x != d { ParentsAreAbove(d, x); }
  }

  // Nothing else is collected: every path is one that was asked for or a nonempty proper
  // prefix of one.
  lemma {:induction false} CollectedOnly(paths: seq<string>, x: string) returns (i: nat)
    requires x in Collected(paths)
    ensures i < |paths| && (x == ForwardSlashes(paths[i]) || (x != "" && x < ForwardSlashes(paths[i])))
    decreases |paths|
  {
    var k := |paths| - 1;
    if x in Collected(paths[..k]) {
      i := CollectedOnly(paths[..k], x);
    } else {
      i := k;
      var path := ForwardSlashes(paths[k]);
      if x != path { ParentsAreAbove(path, x); }
    }
  }

  // Of a normalised path the directories are collected one by one up to its root.
  lemma {:induction false} ParentsOfNormal(r: string, a: seq<string>)
    requires IsRoot(r) && AllSteps(a)
    ensures var up := WithParents(JoinAll(r, a));
      |up| == |a| + 1 && forall k :: 0 <= k <= |a| ==> up[|a| - k] == JoinAll(r, a[..k])
    decreases |a|
  {
    if a == [] {
      SplitRoot(r);
    } else {
      var init := a[..|a| - 1];
      DirnameStep(r, a);
      ParentsOfNormal(r, init);
      forall k | 0 <= k <= |a| ensures WithParents(JoinAll(r, a))[|a| - k] == JoinAll(r, a[..k]) {
        if k < |a| { assert init[..k] == a[..k]; } else { assert a[..k] == a; }
      }
    }
  }

  lemma DirnameStep(r: string, a: seq<string>)
    requires IsRoot(r) && AllSteps(a) && a != []
    ensures var p, d := JoinAll(r, a), JoinAll(r, a[..|a| - 1]); WithParents(p) == [p] + WithParents(d)
  {
    var init := a[..|a| - 1];
    SplitPath(r, a);
    PathsDiffer(r, init, a);
    if init != [] { EndsInName(r, init); }
  }

  // The collected paths are closed upward and contain every path asked for.
  lemma {:induction false} CollectedIsClosed(paths: seq<string>)
    ensures ClosedUpward(Collected(paths))
    ensures forall i :: 0 <= i < |paths| ==> ForwardSlashes(paths[i]) in Collected(paths)
    decreases |paths|
  {
    if paths != [] {
      var init, last := paths[..|paths| - 1], ForwardSlashes(paths[|paths| - 1]);
      CollectedIsClosed(init);
      forall p | p in Collected(paths) && Dirname(p) != p && Dirname(p) != ""
        ensures Dirname(p) in Collected(paths)
      {
        if p !in Collected(init) { ParentsClosed(last, p); }
      }
      forall i | 0 <= i < |paths| ensures ForwardSlashes(paths[i]) in Collected(paths) {
        if i < |paths| - 1 { assert init[i] == paths[i]; }
      }
    }
  }

  // ----- The directory tree -------------------------------------------------------------------------

  // A listed entry; a file has no `sub`.
  datatype Option<T> = None | Some(value: T)
  datatype Dir = Dir(entries: seq<Entry>)
  datatype Entry = Entry(name: string, sub: Option<Dir>)

  predicate Hidden(name: string) {
    name != "" && name[0] == '.'
  }

  // Names come from a directory listing: they are names, and no two are the same. (A name
  // with a backslash would be taken for a path by the source.)
  predicate WellFormed(es: seq<Entry>)
    decreases es
  {
    && (forall i :: 0 <= i < |es| ==> IsName(es[i].name) && Clean(es[i].name))
    && (forall i, j :: 0 <= i < j < |es| ==> es[i].name != es[j].name)
    && (forall i :: 0 <= i < |es| && es[i].sub.Some? ==> WellFormed(es[i].sub.value.entries))
  }

  // cs leads from the root, through directories, to a directory.
  predicate IsDir(es: seq<Entry>, cs: seq<string>)
    decreases |cs|
  {
    cs == [] ||
    exists i :: 0 <= i < |es| && es[i].name == cs[0] && es[i].sub.Some? && IsDir(es[i].sub.value.entries, cs[1..])
  }

  predicate Visible(cs: seq<string>) {
    forall i :: 0 <= i < |cs| ==> !("." <= cs[i])
  }

  // ----- ExcludePaths -----------------------------------------------------------------------------------

  // OSPath, except on Windows.
  function OSPath(path: string): string {
    ForwardSlashes(path)
  }

  function Excluded(root: string, es: seq<Entry>, used: set<string>): seq<string>
    decreases es, 0
  {
    if es == [] then [] else ExcludedAt(root, es[0], used) + Excluded(root, es[1..], used)
  }

  // What one entry of the listing of root contributes.
  function ExcludedAt(root: string, e: Entry, used: set<string>): seq<string>
    decreases e, 1
  {
    var fullname := Join(OSPath(root), e.name);
    if Hidden(e.name) || e.sub.None? then []
    else if fullname !in used then [fullname]
    else Excluded(fullname, e.sub.value.entries, used)
  }

  lemma {:induction false} ExcludedSnoc(root: string, es: seq<Entry>, e: Entry, used: set<string>)
    ensures Excluded(root, es + [e], used) == Excluded(root, es, used) + ExcludedAt(root, e, used)
    decreases |es|
  {
    if es == [] {
      assert [e][1..] == [] && es + [e] == [e];
    } else {
      ExcludedSnoc(root, es[1..], e, used);
      assert (es + [e])[1..] == es[1..] + [e] && (es + [e])[0] == es[0];
      Assoc(ExcludedAt(root, es[0], used), Excluded(root, es[1..], used), ExcludedAt(root, e, used));
    }
  }

  // dir is the directory at OSPath(rootpath).
  method ExcludePaths(rootpath: string, dir: Dir, used: set<string>) returns (ret: seq<string>)
    ensures ret == Excluded(rootpath, dir.entries, used)
    decreases dir
  {
    ret := [];
    var files := dir.entries;
    for i := 0 to |files|
      invariant ret == Excluded(rootpath, files[..i], used)
    {
      var file := files[i];
      assert files[..i + 1] == files[..i] + [file];
      ExcludedSnoc(rootpath, files[..i], file, used);
      if Hidden(file.name) {
        continue;
      }
      var fullname := Join(OSPath(rootpath), file.name);
      if file.sub.Some? {
        if fullname !in used {
          ret := ret + [fullname];
        } else {
          var below := ExcludePaths(fullname, file.sub.value, used);
          ret := ret + below;
        }
      }
    }
    assert files[..|files|] == files;
  }

  // ----- Exact cover ---------------------------------------------------------------------------------------

  // cs is the first directory on its own path that is not used.
  predicate FirstUnused(root: string, cs: seq<string>, used: set<string>)
    decreases |cs|
  {
    cs != [] &&
    (var full := Join(root, cs[0]);
     if full !in used then |cs| == 1 else FirstUnused(full, cs[1..], used))
  }

  // The visible directories that are not used while all directories above them are.
  predicate Frontier(root: string, es: seq<Entry>, cs: seq<string>, used: set<string>) {
    IsDir(es, cs) && Visible(cs) && FirstUnused(root, cs, used)
  }

  // A path below a rewritten root is not changed by rewriting it again.
  lemma FullIsClean(root: string, name: string)
    requires Clean(name)
    ensures OSPath(Join(OSPath(root), name)) == Join(OSPath(root), name)
  {
    ForwardIsClean(root);
    ForwardIsClean(Join(OSPath(root), name));
  }

  lemma {:induction false} FrontierIsExcluded(root: string, es: seq<Entry>, cs: seq<string>, used: set<string>)
    requires WellFormed(es) && Frontier(OSPath(root), es, cs, used)
    ensures JoinAll(OSPath(root), cs) in Excluded(root, es, used)
    decreases |cs|
  {
    var i :| 0 <= i < |es| && es[i].name == cs[0] && es[i].sub.Some? && IsDir(es[i].sub.value.entries, cs[1..]);
    var full := Join(OSPath(root), cs[0]);
    FullIsClean(root, cs[0]);
    if full in used {
      FrontierIsExcluded(full, es[i].sub.value.entries, cs[1..], used);
    }
    assert JoinAll(OSPath(root), cs) in ExcludedAt(root, es[i], used);
    EntryInExcluded(root, es, i, used, JoinAll(OSPath(root), cs));
  }

  lemma {:induction false} EntryInExcluded(root: string, es: seq<Entry>, i: nat, used: set<string>, x: string)
    requires i < |es| && x in ExcludedAt(root, es[i], used)
    ensures x in Excluded(root, es, used)
    decreases |es|
  {
    if i > 0 { EntryInExcluded(root, es[1..], i - 1, used, x); }
  }

  lemma {:induction false} ExcludedHasEntry(root: string, es: seq<Entry>, used: set<string>, x: string) returns (i: nat)
    requires x in Excluded(root, es, used)
    ensures i < |es| && x in ExcludedAt(root, es[i], used)
    decreases |es|
  {
    if x in ExcludedAt(root, es[0], used) {
      i := 0;
    } else {
      i := ExcludedHasEntry(root, es[1..], used, x);
      i := i + 1;
    }
  }

  lemma {:induction false} ExcludedIsFrontier(root: string, es: seq<Entry>, used: set<string>, x: string)
    returns (cs: seq<string>)
    requires WellFormed(es) && x in Excluded(root, es, used)
    ensures Frontier(OSPath(root), es, cs, used) && x == JoinAll(OSPath(root), cs)
    decreases es, 1
  {
    var i := ExcludedHasEntry(root, es, used, x);
    cs := ExcludedAtIsFrontier(root, es, i, used, x);
  }

  lemma {:induction false} ExcludedAtIsFrontier(root: string, es: seq<Entry>, i: nat, used: set<string>, x: string)
    returns (cs: seq<string>)
    requires WellFormed(es) && i < |es| && x in ExcludedAt(root, es[i], used)
    ensures Frontier(OSPath(root), es, cs, used) && x == JoinAll(OSPath(root), cs) && cs[0] == es[i].name
    decreases es, 0
  {
    var e := es[i];
    var full := Join(OSPath(root), e.name);
    FullIsClean(root, e.name);
    if full !in used {
      cs := [e.name];
      assert IsDir(e.sub.value.entries, cs[1..]);
      assert JoinAll(full, cs[1..]) == full;
    } else {
      var ds := ExcludedIsFrontier(full, e.sub.value.entries, used, x);
      cs := [e.name] + ds;
      assert cs[1..] == ds && IsDir(e.sub.value.entries, cs[1..]);
    }
  }

  lemma {:induction false} DirNames(es: seq<Entry>, cs: seq<string>)
    requires WellFormed(es) && IsDir(es, cs)
    ensures AllSteps(cs)
    decreases |cs|
  {
    if cs != [] {
      var i :| 0 <= i < |es| && es[i].name == cs[0] && es[i].sub.Some? && IsDir(es[i].sub.value.entries, cs[1..]);
      DirNames(es[i].sub.value.entries, cs[1..]);
      forall k | 0 <= k < |cs| ensures IsStep(cs[k]) {
        if k > 0 { assert cs[k] == cs[1..][k - 1]; }
      }
    }
  }

  lemma {:induction false} DirNamesClean(es: seq<Entry>, cs: seq<string>)
    requires WellFormed(es) && IsDir(es, cs)
    ensures AllClean(cs)
    decreases |cs|
  {
    if cs != [] {
      var i :| 0 <= i < |es| && es[i].name == cs[0] && es[i].sub.Some? && IsDir(es[i].sub.value.entries, cs[1..]);
      DirNamesClean(es[i].sub.value.entries, cs[1..]);
      forall k | 0 <= k < |cs| ensures Clean(cs[k]) {
        if k > 0 { assert cs[k] == cs[1..][k - 1]; }
      }
    }
  }

  // No excluded path has a backslash, whatever the root is written like.
  lemma ExcludedIsClean(root: string, es: seq<Entry>, used: set<string>, x: string)
    requires WellFormed(es) && x in Excluded(root, es, used)
    ensures Clean(x)
  {
    var cs := ExcludedIsFrontier(root, es, used, x);
    ForwardIsClean(root);
    DirNamesClean(es, cs);
    JoinAllClean(OSPath(root), cs);
  }

  // Different entries of one listing contribute different paths.
  lemma EntriesApart(root: string, es: seq<Entry>, i: nat, j: nat, used: set<string>, x: string)
    requires WellFormed(es) && i < j < |es|
    requires x in ExcludedAt(root, es[i], used)
    ensures x !in ExcludedAt(root, es[j], used)
  {
    if x in ExcludedAt(root, es[j], used) {
      var cs := ExcludedAtIsFrontier(root, es, i, used, x);
      var ds := ExcludedAtIsFrontier(root, es, j, used, x);
      DirNames(es, cs);
      DirNames(es, ds);
      PathsDiffer(OSPath(root), cs, ds);
    }
  }

  lemma CountConcat(a: seq<string>, b: seq<string>, x: string)
    requires multiset(a)[x] <= 1 && multiset(b)[x] <= 1 && !(x in a && x in b)
    ensures multiset(a + b)[x] <= 1
  {
    assert multiset(a + b) == multiset(a) + multiset(b);
  }

  // Nothing is excluded twice.
  lemma {:induction false} ExcludedOnce(root: string, es: seq<Entry>, used: set<string>, x: string)
    requires WellFormed(es)
    ensures multiset(Excluded(root, es, used))[x] <= 1
    decreases es, 1
  {
    if es != [] {
      var rest := es[1..];
      assert forall i :: 0 <= i < |rest| ==> rest[i] == es[i + 1];
      ExcludedOnce(root, rest, used, x);
      ExcludedAtOnce(root, es[0], used, x);
      if x in ExcludedAt(root, es[0], used) && x in Excluded(root, rest, used) {
        var j := ExcludedHasEntry(root, rest, used, x);
        EntriesApart(root, es, 0, j + 1, used, x);
      }
      CountConcat(ExcludedAt(root, es[0], used), Excluded(root, rest, used), x);
    }
  }

  lemma {:induction false} ExcludedAtOnce(root: string, e: Entry, used: set<string>, x: string)
    requires e.sub.Some? ==> WellFormed(e.sub.value.entries)
    ensures multiset(ExcludedAt(root, e, used))[x] <= 1
    decreases e, 2
  {
    if e.sub.Some? { ExcludedOnce(Join(OSPath(root), e.name), e.sub.value.entries, used, x); }
  }

  // ----- Prefixes of a directory's path -------------------------------------------------------------------

  lemma {:induction false} PrefixIsDir(es: seq<Entry>, cs: seq<string>, k: nat)
    requires IsDir(es, cs) && k <= |cs|
    ensures IsDir(es, cs[..k])
    decreases k
  {
    if k > 0 {
      var i :| 0 <= i < |es| && es[i].name == cs[0] && es[i].sub.Some? && IsDir(es[i].sub.value.entries, cs[1..]);
      PrefixIsDir(es[i].sub.value.entries, cs[1..], k - 1);
      assert cs[..k][1..] == cs[1..][..k - 1];
    }
  }

  // The path of the ancestor-or-self at depth k.
  function Ancestor(root: string, cs: seq<string>, k: nat): string
    requires k <= |cs|
  {
    JoinAll(root, cs[..k])
  }

  lemma {:induction false} FirstUnusedIff(root: string, cs: seq<string>, k: nat, used: set<string>)
    requires 1 <= k <= |cs|
    ensures FirstUnused(root, cs[..k], used) <==>
      Ancestor(root, cs, k) !in used && forall j :: 1 <= j < k ==> Ancestor(root, cs, j) in used
    decreases k
  {
    var full, rest := Join(root, cs[0]), cs[1..];
    assert cs[..1] == [cs[0]] && [cs[0]][1..] == [];
    assert Ancestor(root, cs, 1) == JoinAll(full, []) == full;
    if k > 1 {
      FirstUnusedIff(full, rest, k - 1, used);
      assert cs[..k][1..] == rest[..k - 1];
      forall j | 1 <= j <= k - 1 ensures Ancestor(root, cs, j + 1) == Ancestor(full, rest, j) {
        assert cs[..j + 1][1..] == rest[..j];
      }
      assert forall j :: 2 <= j <= k ==> Ancestor(root, cs, j) == Ancestor(full, rest, j - 1);
    }
  }

  // An ancestor is excluded exactly if it is the first unused directory on the way down.
  lemma AncestorExcludedIff(root: string, es: seq<Entry>, cs: seq<string>, k: nat, used: set<string>)
    requires WellFormed(es) && IsDir(es, cs) && Visible(cs) && 1 <= k <= |cs|
    ensures var top := OSPath(root);
      Ancestor(top, cs, k) in Excluded(root, es, used) <==>
      Ancestor(top, cs, k) !in used && forall j :: 1 <= j < k ==> Ancestor(top, cs, j) in used
  {
    var top := OSPath(root);
    var x, front := Ancestor(top, cs, k), cs[..k];
    PrefixIsDir(es, cs, k);
    FirstUnusedIff(top, cs, k, used);
    if FirstUnused(top, front, used) {
      FrontierIsExcluded(root, es, front, used);
    }
    if x in Excluded(root, es, used) {
      var ds := ExcludedIsFrontier(root, es, used, x);
      DirNames(es, ds);
      DirNames(es, front);
      if ds != front { PathsDiffer(top, ds, front); }
    }
  }

  // The shallowest of the first n ancestors that is not used; 0 if all are.
  lemma {:induction false} FirstGap(root: string, cs: seq<string>, n: nat, used: set<string>) returns (k: nat)
    requires n <= |cs|
    ensures k <= n && forall j :: 1 <= j <= n && (k == 0 || j < k) ==> Ancestor(root, cs, j) in used
    ensures k > 0 ==> Ancestor(root, cs, k) !in used
    decreases n
  {
    k := 0;
    if n > 0 {
      k := FirstGap(root, cs, n - 1, used);
      if k == 0 && Ancestor(root, cs, n) !in used { k := n; }
    }
  }

  // Whatever the used paths: of the directories on the way to a visible directory exactly
  // the k-th is excluded, and none (k == 0) only if all of them are used.
  lemma ExcludedOnTheWay(root: string, es: seq<Entry>, cs: seq<string>, used: set<string>) returns (k: nat)
    requires WellFormed(es) && IsDir(es, cs) && Visible(cs)
    ensures var top := OSPath(root);
      && k <= |cs|
      && (forall j :: 1 <= j <= |cs| ==> (Ancestor(top, cs, j) in Excluded(root, es, used) <==> j == k))
      && (k == 0 <==> forall j :: 1 <= j <= |cs| ==> Ancestor(top, cs, j) in used)
  {
    var top := OSPath(root);
    k := FirstGap(top, cs, |cs|, used);
    forall j | 1 <= j <= |cs| ensures Ancestor(top, cs, j) in Excluded(root, es, used) <==> j == k {
      AncestorExcludedIff(root, es, cs, j, used);
    }
  }

  // ----- The cover theorem -----------------------------------------------------------------------------------

  // In a normalised path the directory above depth k + 1 is the one at depth k.
  lemma DirnameOfAncestor(r: string, a: seq<string>, cs: seq<string>, k: nat)
    requires IsRoot(r) && AllSteps(a) && AllSteps(cs) && k < |cs|
    ensures Dirname(Ancestor(JoinAll(r, a), cs, k + 1)) == Ancestor(JoinAll(r, a), cs, k)
    ensures Ancestor(JoinAll(r, a), cs, k) != Ancestor(JoinAll(r, a), cs, k + 1)
    ensures Ancestor(JoinAll(r, a), cs, k) != ""
  {
    JoinAllConcat(r, a, cs[..k]);
    JoinAllConcat(r, a, cs[..k + 1]);
    TakeSnoc(a, cs, k);
    DirnameOfPath(r, a + cs[..k], cs[k]);
  }

  lemma TakeSnoc(a: seq<string>, cs: seq<string>, k: nat)
    requires k < |cs|
    ensures a + cs[..k + 1] == (a + cs[..k]) + [cs[k]]
    ensures AllSteps(a) && AllSteps(cs) ==> AllSteps(a + cs[..k])
  {
  }

  lemma DirnameOfPath(r: string, top: seq<string>, c: string)
    requires IsRoot(r) && AllSteps(top) && IsStep(c)
    ensures Dirname(JoinAll(r, top + [c])) == JoinAll(r, top)
    ensures JoinAll(r, top) != JoinAll(r, top + [c]) && JoinAll(r, top) != ""
  {
    var whole := top + [c];
    SplitPath(r, whole);
    assert whole[..|whole| - 1] == top;
    PathsDiffer(r, top, whole);
    if top != [] { EndsInName(r, top); }
  }

  lemma {:induction false} UsedAbove(r: string, a: seq<string>, cs: seq<string>, k: nat, j: nat, used: set<string>)
    requires IsRoot(r) && AllSteps(a) && AllSteps(cs) && ClosedUpward(used)
    requires j <= k <= |cs| && Ancestor(JoinAll(r, a), cs, k) in used
    ensures Ancestor(JoinAll(r, a), cs, j) in used
    decreases k
  {
    if j < k {
      DirnameOfAncestor(r, a, cs, k - 1);
      UsedAbove(r, a, cs, k - 1, j, used);
    }
  }

  // The root that the source works with is a normalised path of components a.
  predicate IsRootPath(root: string, r: string, a: seq<string>) {
    IsRoot(r) && AllSteps(a) && OSPath(root) == JoinAll(r, a)
  }

  // With used paths that are closed upward, the excluded directories cover exactly the rest of
  // the visible tree below the root: a used directory has no excluded one on its way (so no
  // excluded directory contains a used one), and any other has exactly one.
  lemma ExactCover(root: string, r: string, a: seq<string>, es: seq<Entry>, cs: seq<string>, used: set<string>)
    returns (k: nat)
    requires IsRootPath(root, r, a) && ClosedUpward(used)
    requires WellFormed(es) && IsDir(es, cs) && Visible(cs) && cs != []
    ensures var top := OSPath(root); var ret := Excluded(root, es, used);
      && k <= |cs|
      && (forall j :: 1 <= j <= |cs| ==> (Ancestor(top, cs, j) in ret <==> j == k))
      && (k == 0 <==> JoinAll(top, cs) in used)
      && (k > 0 ==> multiset(ret)[Ancestor(top, cs, k)] == 1)
  {
    var top := OSPath(root);
    k := ExcludedOnTheWay(root, es, cs, used);
    DirNames(es, cs);
    assert cs[..|cs|] == cs;
    assert Ancestor(top, cs, |cs|) == JoinAll(top, cs);
    if JoinAll(top, cs) in used {
      forall j | 1 <= j <= |cs| ensures Ancestor(top, cs, j) in used {
        UsedAbove(r, a, cs, |cs|, j, used);
      }
    }
    if k > 0 { ExcludedOnce(root, es, used, Ancestor(top, cs, k)); }
  }

  // Under an excluded directory nothing is used, whether it is in the tree, hidden or neither.
  lemma NothingUsedBelowExcluded(root: string, r: string, a: seq<string>, es: seq<Entry>, used: set<string>,
                                 x: string, ds: seq<string>)
    requires IsRootPath(root, r, a) && ClosedUpward(used) && WellFormed(es)
    requires x in Excluded(root, es, used) && AllSteps(ds)
    ensures JoinAll(x, ds) !in used
  {
    var top := OSPath(root);
    var cs := ExcludedIsFrontier(root, es, used, x);
    DirNames(es, cs);
    FirstUnusedIff(top, cs, |cs|, used);
    assert cs[..|cs|] == cs;
    if JoinAll(x, ds) in used {
      var all := cs + ds;
      JoinAllConcat(top, cs, ds);
      assert all[..|all|] == all && all[..|cs|] == cs;
      UsedAbove(r, a, all, |all|, |cs|, used);
    }
  }
}
