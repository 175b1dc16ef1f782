// splitall and _make_path_relative of utils.py.
module RelativePath {
  import opened PosixPath
  import opened Sequences

  function Reversed(q: seq<string>): seq<string> {
    if q == [] then [] else Reversed(q[1..]) + [q[0]]
  }

  lemma {:induction false} ReversedSnoc(q: seq<string>, x: string)
    ensures Reversed(q + [x]) == [x] + Reversed(q)
  {
    if q == [] {
      assert [] + [x] == [x];
    } else {
      ReversedSnoc(q[1..], x);
      assert (q + [x])[1..] == q[1..] + [x];
      Assoc([x], Reversed(q[1..]), [q[0]]);
    }
  }

  // ----- splitall ------------------------------------------------------------------------------

  function SplitAllOf(loc: string): (parts: seq<string>)
    ensures parts != []
    decreases |loc|
  {
    if loc == "." || loc == ".." then [loc]
    else
      var (head, child) := Split(loc);
      if head == loc then [loc] else SplitAllOf(head) + [child]
  }

  // Ends on every string.
  method SplitAll(path: string) returns (parts: seq<string>)
    ensures parts == SplitAllOf(path)
  {
    var loc := path;
    parts := [];
    while loc != "." && loc != ".."
      invariant SplitAllOf(path) == SplitAllOf(loc) + Reversed(parts)
      decreases |loc|
    {
      var prev := loc;
      var (head, child) := Split(prev);
      loc := head;
      if loc == prev {
        break;
      }
      ReversedSnoc(parts, child);
      Assoc(SplitAllOf(head), [child], Reversed(parts));
      parts := parts + [child];
    }
    ReversedSnoc(parts, loc);
    parts := parts + [loc];
    parts := Reverse(parts);
  }

  // list.reverse.
  method Reverse(q: seq<string>) returns (r: seq<string>)
    ensures r == Reversed(q)
  {
    r := [];
    for i := 0 to |q|
      invariant r == Reversed(q[..i])
    {
      ReversedSnoc(q[..i], q[i]);
      assert q[..i + 1] == q[..i] + [q[i]];
      r := [q[i]] + r;
    }
    assert q[..|q|] == q;
  }

  // A normalised absolute path: its root and its components.
  predicate IsNormal(p: string, r: string, cs: seq<string>) {
    IsRoot(r) && AllNames(cs) && p == JoinAll(r, cs)
  }

  lemma StartsWithSlash(p: string, r: string, cs: seq<string>)
    requires IsNormal(p, r, cs)
    ensures p != "" && p[0] == SLASH
  {
    if cs != [] { EndsInName(r, cs); }
  }

  // One turn of the loop on a normalised path.
  lemma SplitNormal(p: string, r: string, cs: seq<string>)
    requires IsNormal(p, r, cs) && cs != []
    ensures var init := cs[..|cs| - 1];
      Split(p) == (JoinAll(r, init), cs[|cs| - 1]) && JoinAll(r, init) != p && IsNormal(JoinAll(r, init), r, init)
  {
    SplitPath(r, cs);
    PathsDiffer(r, cs[..|cs| - 1], cs);
  }

  lemma SplitAllTurn(p: string, head: string, child: string)
    requires p != "" && p[0] == SLASH && Split(p) == (head, child) && head != p
    ensures SplitAllOf(p) == SplitAllOf(head) + [child]
  {
  }

  lemma PartsSnoc(r: string, cs: seq<string>)
    requires cs != []
    ensures ([r] + cs[..|cs| - 1]) + [cs[|cs| - 1]] == [r] + cs
  {
  }

  lemma {:induction false} SplitAllParts(p: string, r: string, cs: seq<string>)
    requires IsNormal(p, r, cs)
    ensures SplitAllOf(p) == [r] + cs
    decreases |cs|
  {
    StartsWithSlash(p, r, cs);
    if cs == [] {
      SplitRoot(r);
    } else {
      var init, last := cs[..|cs| - 1], cs[|cs| - 1];
      SplitNormal(p, r, cs);
      SplitAllTurn(p, JoinAll(r, init), last);
      SplitAllParts(JoinAll(r, init), r, init);
      PartsSnoc(r, cs);
    }
  }

  // The parts of a normalised path are its root and components, and joining them gives the
  // path back.
  lemma SplitAllNormal(p: string, r: string, cs: seq<string>)
    requires IsNormal(p, r, cs)
    ensures SplitAllOf(p) == [r] + cs
    ensures JoinAll(SplitAllOf(p)[0], SplitAllOf(p)[1..]) == p
  {
    SplitAllParts(p, r, cs);
    assert ([r] + cs)[1..] == cs;
  }

  lemma SplitKeeps(p: string)
    requires Split(p).0 == p
    ensures AllSlashes(p)
  {
  }

  // The first part is ".", "..", empty or a root.
  lemma {:induction false} SplitAllFirst(p: string)
    ensures var first := SplitAllOf(p)[0]; first == "." || first == ".." || AllSlashes(first)
    decreases |p|
  {
    if p != "." && p != ".." {
      var (head, child) := Split(p);
      if head == p { SplitKeeps(p); } else { SplitAllFirst(head); }
    }
  }

  lemma SplitAllStart(c: string)
    requires c == "." || IsStep(c)
    ensures SplitAllOf(c) == if c == "." || c == ".." then [c] else ["", c]
  {
    if c != "." && c != ".." {
      AfterLastSlashIs("", c);
      assert "" + c == c && c[..0] == "" && c[0..] == c;
      assert SplitAllOf("") == [""];
    }
  }

  lemma SplitAllStep(head: string, c: string)
    requires head != "" && head[|head| - 1] != SLASH && IsStep(c)
    ensures SplitAllOf(Join(head, c)) == SplitAllOf(head) + [c]
  {
    var p := Join(head, c);
    SplitJoin(head, c);
    assert p == head + [SLASH] + c && p[|head|] == SLASH;
  }

  // The parts of a relative path: its components, after an empty part unless the first is
  // "." or ".."; joining them gives the path back.
  lemma {:induction false} SplitAllRelative(c: string, cs: seq<string>)
    requires (c == "." || IsStep(c)) && AllSteps(cs)
    ensures SplitAllOf(JoinAll(c, cs)) == (if c == "." || c == ".." then [c] else ["", c]) + cs
    ensures JoinAll(SplitAllOf(JoinAll(c, cs))[0], SplitAllOf(JoinAll(c, cs))[1..]) == JoinAll(c, cs)
    decreases |cs|
  {
    var start := if c == "." || c == ".." then [c] else ["", c];
    if cs == [] {
      SplitAllStart(c);
      assert start + [] == start;
    } else {
      var init, last := cs[..|cs| - 1], cs[|cs| - 1];
      assert init + [last] == cs;
      JoinAllSnoc(c, init, last);
      if init != [] { EndsInName(c, init); }
      SplitAllStep(JoinAll(c, init), last);
      SplitAllRelative(c, init);
      Assoc(start, init, [last]);
    }
    RejoinRelative(c, cs);
  }

  lemma RejoinRelative(c: string, cs: seq<string>)
    requires c == "." || IsStep(c)
    ensures JoinAll(([c] + cs)[0], ([c] + cs)[1..]) == JoinAll(c, cs)
    ensures JoinAll((["", c] + cs)[0], (["", c] + cs)[1..]) == JoinAll(c, cs)
  {
    assert ([c] + cs)[1..] == cs && (["", c] + cs)[1..] == [c] + cs;
    assert c[0] != SLASH && "" + c == c;
  }

  // ----- Walking -------------------------------------------------------------------------------

  // cd, one step: ".." at the root stays there.
  function Move(at: seq<string>, step: string): seq<string> {
    if step != ".." then at + [step] else if at == [] then [] else at[..|at| - 1]
  }

  function Walk(at: seq<string>, steps: seq<string>): seq<string>
    decreases |steps|
  {
    if steps == [] then at else Walk(Move(at, steps[0]), steps[1..])
  }

  lemma {:induction false} WalkConcat(at: seq<string>, a: seq<string>, b: seq<string>)
    ensures Walk(at, a + b) == Walk(Walk(at, a), b)
    decreases |a|
  {
    if a == [] {
      assert a + b == b;
    } else {
      WalkConcat(Move(at, a[0]), a[1..], b);
      assert (a + b)[1..] == a[1..] + b;
    }
  }

  lemma {:induction false} WalkDown(at: seq<string>, names: seq<string>)
    requires AllNames(names)
    ensures Walk(at, names) == at + names
    decreases |names|
  {
    if names != [] {
      WalkDown(at + [names[0]], names[1..]);
      Assoc(at, [names[0]], names[1..]);
      assert names == [names[0]] + names[1..];
    }
  }

  function Ups(n: nat): seq<string> {
    seq(n, i => "..")
  }

  lemma {:induction false} WalkUp(at: seq<string>, n: nat)
    requires n <= |at|
    ensures Walk(at, Ups(n)) == at[..|at| - n]
    decreases n
  {
    if n == 0 {
      assert at[..|at|] == at;
    } else {
      WalkUp(at[..|at| - 1], n - 1);
      assert Ups(n)[1..] == Ups(n - 1);
      assert at[..|at| - 1][..|at| - n] == at[..|at| - n];
    }
  }

  // ----- _make_path_relative -----------------------------------------------------------------------

  // How many leading components a and b share.
  function Common(a: seq<string>, b: seq<string>): (k: nat)
    ensures k <= |a| && k <= |b| && a[..k] == b[..k]
    ensures k < |a| && k < |b| ==> a[k] != b[k]
  {
    if a != [] && b != [] && a[0] == b[0] then 1 + Common(a[1..], b[1..]) else 0
  }

  // The segments of the relative path: up to the point of divergence, then down.
  function Segments(a: seq<string>, b: seq<string>): seq<string> {
    Ups(|a| - Common(a, b)) + b[Common(a, b)..]
  }

  function JoinSegments(segs: seq<string>): string {
    if segs == [] then "." else JoinAll(segs[0], segs[1..])
  }

  lemma {:induction false} CommonIs(a: seq<string>, b: seq<string>, k: nat)
    requires k <= |a| && k <= |b| && a[..k] == b[..k]
    requires k < |a| && k < |b| ==> a[k] != b[k]
    ensures Common(a, b) == k
    decreases k
  {
    if k > 0 {
      assert a[0] == a[..k][0] == b[0];
      assert a[1..][..k - 1] == a[..k][1..] && b[1..][..k - 1] == b[..k][1..];
      CommonIs(a[1..], b[1..], k - 1);
    }
  }

  // The loop over zip(orig_list, dest_list).
  method Diverge(p: seq<string>, q: seq<string>) returns (i: nat)
    ensures i == Common(p, q)
  {
    i := 0;
    while i < |p| && i < |q|
      invariant i <= |p| && i <= |q|
      invariant p[..i] == q[..i]
    {
      if p[i] != q[i] {
        break;
      }
      i := i + 1;
    }
    CommonIs(p, q, i);
  }

  lemma CommonBelowRoot(r: string, a: seq<string>, b: seq<string>)
    ensures Common([r] + a, [r] + b) == Common(a, b) + 1
  {
    assert ([r] + a)[1..] == a && ([r] + b)[1..] == b;
  }

  lemma SegmentsBelowRoot(r: string, a: seq<string>, b: seq<string>)
    ensures Segments([r] + a, [r] + b) == Segments(a, b)
  {
    CommonBelowRoot(r, a, b);
    assert ([r] + b)[Common(a, b) + 1..] == b[Common(a, b)..];
  }

  // _make_path_relative for the results origin and dest of os.path.abspath. The source
  // rewrites backslashes in both, on every system.
  function RelativeOf(origin: string, dest: string): string {
    var p, q := SplitAllOf(ForwardSlashes(origin)), SplitAllOf(ForwardSlashes(dest));
    if p[0] != q[0] then ForwardSlashes(dest) else JoinSegments(Segments(p, q))
  }

  method MakePathRelative(origin: string, dest: string) returns (rel: string)
    ensures rel == RelativeOf(origin, dest)
  {
    var origList := SplitAll(ForwardSlashes(origin));
    var destList := SplitAll(ForwardSlashes(dest));
    if origList[0] != destList[0] {
      return ForwardSlashes(dest);
    }
    var i := Diverge(origList, destList);
    var segments := seq(|origList| - i, i => "..");
    segments := segments + destList[i..];
    if |segments| == 0 {
      rel := ".";
    } else {
      rel := JoinAll(segments[0], segments[1..]);
    }
  }

  // Between paths that are normalised once rewritten: the rewritten dest if the roots differ,
  // else the way up and down.
  lemma RelativeOfNormal(origin: string, dest: string, r: string, a: seq<string>, s: string, b: seq<string>)
    requires IsNormal(ForwardSlashes(origin), r, a) && IsNormal(ForwardSlashes(dest), s, b)
    ensures RelativeOf(origin, dest) == if r != s then ForwardSlashes(dest) else JoinSegments(Segments(a, b))
  {
    SplitAllParts(ForwardSlashes(origin), r, a);
    SplitAllParts(ForwardSlashes(dest), s, b);
    if r == s { SegmentsBelowRoot(r, a, b); }
  }

  lemma StepsOfRelative(a: seq<string>, b: seq<string>)
    requires AllNames(b)
    ensures AllSteps(Segments(a, b)) && Steps(JoinSegments(Segments(a, b))) == Segments(a, b)
    ensures var rel := JoinSegments(Segments(a, b)); rel == "" || rel[0] != SLASH
  {
    var segs := Segments(a, b);
    if segs == [] {
      NoSteps();
    } else {
      StepsOfStep(segs[0]);
      StepsJoinAll(segs[0], segs[1..]);
      assert [segs[0]] + segs[1..] == segs;
      FirstChar(segs[0], segs[1..]);
    }
  }

  lemma {:induction false} FirstChar(acc: string, segs: seq<string>)
    requires acc != "" && acc[0] != SLASH && AllSteps(segs)
    ensures JoinAll(acc, segs) != "" && JoinAll(acc, segs)[0] == acc[0]
    decreases |segs|
  {
    if segs != [] { FirstChar(Join(acc, segs[0]), segs[1..]); }
  }

  lemma StepsOfNormal(p: string, r: string, cs: seq<string>)
    requires IsNormal(p, r, cs)
    ensures Steps(p) == cs
  {
    NoSteps();
    StepsJoinAll(r, cs);
    assert [] + cs == cs;
  }

  lemma TailNames(b: seq<string>, k: nat)
    requires AllNames(b) && k <= |b|
    ensures AllNames(b[k..])
  {
  }

  lemma WalkUpDown(a: seq<string>, up: nat, names: seq<string>)
    requires up <= |a| && AllNames(names)
    ensures Walk(a, Ups(up) + names) == a[..|a| - up] + names
  {
    var top := a[..|a| - up];
    WalkConcat(a, Ups(up), names);
    WalkUp(a, up);
    WalkDown(top, names);
  }

  lemma WalkVia(a: seq<string>, b: seq<string>, k: nat)
    requires k <= |a| && k <= |b| && a[..k] == b[..k] && AllNames(b[k..])
    ensures Walk(a, Ups(|a| - k) + b[k..]) == b
  {
    Rejoin(a, b, k);
    WalkUpDown(a, |a| - k, b[k..]);
  }

  lemma Rejoin<T>(a: seq<T>, b: seq<T>, k: nat)
    requires k <= |a| && k <= |b| && a[..k] == b[..k]
    ensures a[..|a| - (|a| - k)] + b[k..] == b
  {
  }

  lemma PiecesJoinStep(acc: string, c: string)
    requires acc != "" && acc[|acc| - 1] != SLASH && IsStep(c)
    ensures var p := Join(acc, c); Pieces(p) == Pieces(acc) + [c] && p != "" && p[|p| - 1] != SLASH
  {
    assert c[|c| - 1] in c && Join(acc, c) == acc + [SLASH] + c;
    PiecesJoin(acc, c);
    PiecesOfPiece(c);
  }

  lemma {:induction false} PiecesJoinAll(acc: string, segs: seq<string>)
    requires acc != "" && acc[|acc| - 1] != SLASH && AllSteps(segs)
    ensures Pieces(JoinAll(acc, segs)) == Pieces(acc) + segs
    decreases |segs|
  {
    if segs != [] {
      PiecesJoinStep(acc, segs[0]);
      PiecesJoinAll(Join(acc, segs[0]), segs[1..]);
      Assoc(Pieces(acc), [segs[0]], segs[1..]);
      assert [segs[0]] + segs[1..] == segs;
    }
  }

  lemma PiecesOfSegments(segs: seq<string>)
    requires AllSteps(segs) && segs != []
    ensures Pieces(JoinSegments(segs)) == segs
  {
    var c := segs[0];
    assert c[|c| - 1] in c;
    PiecesOfPiece(c);
    PiecesJoinAll(c, segs[1..]);
    assert [c] + segs[1..] == segs;
  }

  // The text between clean paths with the same root: "." for identical ones, else the
  // segments with single slashes between them.
  lemma RelativeText(origin: string, dest: string, r: string, a: seq<string>, b: seq<string>)
    requires IsNormal(origin, r, a) && IsNormal(dest, r, b) && Clean(origin) && Clean(dest)
    ensures if a == b then RelativeOf(origin, dest) == "."
            else Pieces(RelativeOf(origin, dest)) == Ups(|a| - Common(a, b)) + b[Common(a, b)..]
  {
    ForwardIsClean(origin);
    ForwardIsClean(dest);
    RelativeOfNormal(origin, dest, r, a, r, b);
    SegmentsText(a, b);
  }

  lemma SegmentsText(a: seq<string>, b: seq<string>)
    requires AllNames(b)
    ensures var segs := Segments(a, b);
      if a == b then JoinSegments(segs) == "." else Pieces(JoinSegments(segs)) == segs
  {
    if a == b {
      CommonIs(a, b, |a|);
      assert Segments(a, b) == [];
    } else {
      if Segments(a, b) == [] { NoSegments(a, b); }
      StepsOfRelative(a, b);
      PiecesOfSegments(Segments(a, b));
    }
  }

  lemma NoSegments(a: seq<string>, b: seq<string>)
    requires Segments(a, b) == []
    ensures a == b
  {
    assert |Segments(a, b)| == |a| - Common(a, b) + |b| - Common(a, b);
    assert a[..|a|] == a && b[..|b|] == b;
  }

  // Exactly two leading slashes are a root of their own; any other number is one.
  function RootOf(p: string): string {
    if |p| >= 2 && p[0] == p[1] == SLASH && (|p| == 2 || p[2] != SLASH) then "//" else "/"
  }

  lemma {:induction false} JoinAllStarts(acc: string, cs: seq<string>)
    requires AllNames(cs)
    ensures acc <= JoinAll(acc, cs)
    decreases |cs|
  {
    if cs != [] { JoinAllStarts(Join(acc, cs[0]), cs[1..]); }
  }

  lemma RootOfNormal(p: string, r: string, cs: seq<string>)
    requires IsNormal(p, r, cs)
    ensures RootOf(p) == r
  {
    if cs != [] {
      assert IsName(cs[0]) && Join(r, cs[0]) == r + cs[0];
      JoinAllStarts(r + cs[0], cs[1..]);
    }
  }

  // What follows a normalised path does not change its root.
  lemma RootOfJoin(p: string, r: string, cs: seq<string>, rel: string)
    requires IsNormal(p, r, cs) && (rel == "" || rel[0] != SLASH)
    ensures RootOf(Join(p, rel)) == r
  {
    RootOfNormal(p, r, cs);
    StartsWithSlash(p, r, cs);
    if cs != [] {
      EndsInName(r, cs);
      assert IsName(cs[0]) && Join(r, cs[0]) == r + cs[0];
      JoinAllStarts(r + cs[0], cs[1..]);
      assert r + cs[0] <= p <= Join(p, rel);
    }
  }

  // Joining the relative path to origin and following the result leads from the root of dest
  // to dest.
  predicate Resolves(origin: string, dest: string) {
    var joined := Join(origin, RelativeOf(origin, dest));
    RootOf(joined) == RootOf(dest) && Walk([], Steps(joined)) == Steps(dest)
  }

  // It does between normalised paths without backslashes.
  lemma RelativeResolves(origin: string, dest: string, r: string, a: seq<string>, s: string, b: seq<string>)
    requires IsNormal(origin, r, a) && IsNormal(dest, s, b) && Clean(origin) && Clean(dest)
    ensures Resolves(origin, dest) && Steps(dest) == b
  {
    ForwardIsClean(origin);
    ForwardIsClean(dest);
    RelativeOfNormal(origin, dest, r, a, s, b);
    StepsOfNormal(dest, s, b);
    RootOfNormal(dest, s, b);
    if r != s {
      StartsWithSlash(dest, s, b);
      WalkDown([], b);
    } else {
      StepsOfRelative(a, b);
      WalkFrom(origin, JoinSegments(Segments(a, b)), r, a);
      TailNames(b, Common(a, b));
      WalkVia(a, b, Common(a, b));
    }
  }

  // Following a relative path from a normalised one.
  lemma WalkFrom(origin: string, rel: string, r: string, a: seq<string>)
    requires IsNormal(origin, r, a) && (rel == "" || rel[0] != SLASH)
    ensures Walk([], Steps(Join(origin, rel))) == Walk(a, Steps(rel))
    ensures RootOf(Join(origin, rel)) == r
  {
    RootOfJoin(origin, r, a, rel);
    StepsJoin(origin, rel);
    StepsOfNormal(origin, r, a);
    WalkConcat([], a, Steps(rel));
    WalkDown([], a);
    assert [] + a == a;
  }

  // ----- Nothing shorter -----------------------------------------------------------------------------

  // Steps between two directories of the tree.
  function Distance(a: seq<string>, b: seq<string>): nat {
    |a| + |b| - 2 * Common(a, b)
  }

  lemma MoveGainsOne(a: seq<string>, b: seq<string>, step: string)
    ensures Distance(a, b) <= Distance(Move(a, step), b) + 1
  {
    var k, a' := Common(a, b), Move(a, step);
    if step != ".." {
      if k == |a| && k < |b| && b[k] == step {
        assert a'[..k + 1] == b[..k + 1];
        CommonIs(a', b, k + 1);
      } else {
        assert a'[..k] == b[..k];
        CommonIs(a', b, k);
      }
    } else if a != [] {
      var j := if k < |a| then k else k - 1;
      assert a'[..j] == a[..k][..j] == b[..k][..j] == b[..j];
      CommonIs(a', b, j);
    }
  }

  lemma {:induction false} WalkTakesDistance(a: seq<string>, b: seq<string>, steps: seq<string>)
    requires Walk(a, steps) == b
    ensures |steps| >= Distance(a, b)
    decreases |steps|
  {
    if steps == [] {
      assert a == b;
      CommonIs(a, b, |a|);
    } else {
      MoveGainsOne(a, b, steps[0]);
      WalkTakesDistance(Move(a, steps[0]), b, steps[1..]);
    }
  }

  // No path whatsoever leads from origin to dest in fewer steps than the relative path has.
  lemma RelativeIsShortest(a: seq<string>, b: seq<string>, steps: seq<string>)
    requires Walk(a, steps) == b
    ensures |Segments(a, b)| <= |steps|
  {
    WalkTakesDistance(a, b, steps);
  }
}
