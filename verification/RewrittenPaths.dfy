// What the rewriting of backslashes in _make_path_relative does on a system where a
// backslash is an ordinary character of a file name.
module RewrittenPaths {
  import opened PosixPath
  import opened RelativePath
  import opened Sequences

  // ----- The relative path has no backslash --------------------------------------------------

  lemma {:induction false} SplitAllClean(p: string)
    requires Clean(p)
    ensures AllClean(SplitAllOf(p))
    decreases |p|
  {
    if p != "." && p != ".." {
      var (head, child) := Split(p);
      if head != p { SplitAllClean(head); }
    }
  }

  lemma RelativeClean(origin: string, dest: string)
    ensures Clean(RelativeOf(origin, dest))
  {
    ForwardIsClean(origin);
    ForwardIsClean(dest);
    var p, q := SplitAllOf(ForwardSlashes(origin)), SplitAllOf(ForwardSlashes(dest));
    SplitAllClean(ForwardSlashes(dest));
    var segs := Segments(p, q);
    assert AllClean(segs);
    if segs != [] { JoinAllClean(segs[0], segs[1..]); }
  }

  // Clean steps lead to some directory above the start and from there into clean names.
  lemma {:induction false} CleanWalk(a: seq<string>, at: seq<string>, m: nat, steps: seq<string>) returns (m': nat)
    requires m <= |at| && m <= |a| && at[..m] == a[..m] && AllClean(at[m..]) && AllClean(steps)
    ensures var to := Walk(at, steps); m' <= |to| && m' <= |a| && to[..m'] == a[..m'] && AllClean(to[m'..])
    decreases |steps|
  {
    if steps == [] {
      m' := m;
    } else {
      var to := Move(at, steps[0]);
      var n := if m <= |to| then m else |to|;
      assert to[..n] == at[..n] == at[..m][..n] == a[..n];
      assert forall i :: n <= i < |to| ==> to[i] == steps[0] || (i < |at| && to[i] == at[i]);
      assert forall i :: m <= i < |at| ==> at[i] == at[m..][i - m];
      m' := CleanWalk(a, to, n, steps[1..]);
    }
  }

  lemma CommonIsLongest(a: seq<string>, b: seq<string>, m: nat)
    requires m <= |a| && m <= |b| && a[..m] == b[..m]
    ensures m <= Common(a, b)
  {
    assert forall j :: 0 <= j < m ==> a[j] == a[..m][j] && b[j] == b[..m][j];
  }

  // The relative path can resolve only if dest has no backslash below its common part with
  // origin.
  lemma ResolvesOnlyIfClean(origin: string, dest: string, r: string, a: seq<string>, s: string, b: seq<string>)
    requires IsNormal(origin, r, a) && IsNormal(dest, s, b) && Resolves(origin, dest)
    ensures AllClean(b[Common(a, b)..])
  {
    var rel := RelativeOf(origin, dest);
    RelativeClean(origin, dest);
    StepsClean(rel);
    StepsOfNormal(dest, s, b);
    if rel != "" && rel[0] == SLASH {
      LeadsToClean(a, [], 0, Steps(rel), b);
    } else {
      WalkFrom(origin, rel, r, a);
      LeadsToClean(a, a, |a|, Steps(rel), b);
    }
  }

  lemma LeadsToClean(a: seq<string>, at: seq<string>, m: nat, steps: seq<string>, b: seq<string>)
    requires m <= |at| && m <= |a| && at[..m] == a[..m] && AllClean(at[m..]) && AllClean(steps)
    requires Walk(at, steps) == b
    ensures AllClean(b[Common(a, b)..])
  {
    var n := CleanWalk(a, at, m, steps);
    CommonIsLongest(a, b, n);
    assert forall i :: Common(a, b) <= i < |b| ==> b[i] == b[n..][i - n];
  }

  // From an origin without backslashes the relative path resolves if and only if dest has
  // none either.
  lemma ResolvesIffDestClean(origin: string, dest: string, r: string, a: seq<string>, s: string, b: seq<string>)
    requires IsNormal(origin, r, a) && IsNormal(dest, s, b) && Clean(origin)
    ensures Resolves(origin, dest) <==> Clean(dest)
  {
    if Clean(dest) {
      RelativeResolves(origin, dest, r, a, s, b);
    } else if Resolves(origin, dest) {
      ResolvesOnlyIfClean(origin, dest, r, a, s, b);
      StepsOfNormal(origin, r, a);
      StepsClean(origin);
      var k := Common(a, b);
      forall i | 0 <= i < |b| ensures Clean(b[i]) {
        if i < k { assert b[i] == b[..k][i] == a[..k][i] == a[i]; } else { assert b[i] == b[k..][i - k]; }
      }
      JoinAllClean(s, b);
    }
  }

  // If the rewritten paths start differently the rewritten dest is returned as it is, and
  // leads to dest if and only if nothing was rewritten.
  lemma ResolvesIffStartsDiffer(origin: string, dest: string, r: string, a: seq<string>, s: string, b: seq<string>)
    requires IsNormal(origin, r, a) && IsNormal(dest, s, b)
    requires SplitAllOf(ForwardSlashes(origin))[0] != SplitAllOf(ForwardSlashes(dest))[0]
    ensures Resolves(origin, dest) <==> Clean(dest)
  {
    var rel := ForwardSlashes(dest);
    ForwardIsClean(dest);
    StartsWithSlash(dest, s, b);
    StepsOfNormal(dest, s, b);
    assert Join(origin, rel) == rel;
    if Clean(dest) {
      WalkDown([], b);
      assert [] + b == b;
    } else if Resolves(origin, dest) {
      StepsClean(rel);
      LeadsToClean([], [], 0, Steps(rel), b);
      assert b[0..] == b;
      JoinAllClean(s, b);
    }
  }

  // ----- Names that rewriting takes apart into names --------------------------------------------

  // Each piece of the rewritten name is a name again: no backslash at its ends, no two in a
  // row, and none next to a "." or "..".
  predicate Tame(c: string) {
    AllNames(Pieces(ForwardSlashes(c)))
  }

  predicate AllTame(cs: seq<string>) {
    forall i :: 0 <= i < |cs| ==> Tame(cs[i])
  }

  // The components of the rewritten path.
  function Expand(cs: seq<string>): seq<string> {
    if cs == [] then [] else Pieces(ForwardSlashes(cs[0])) + Expand(cs[1..])
  }

  lemma {:induction false} ExpandNames(cs: seq<string>)
    requires AllTame(cs)
    ensures AllNames(Expand(cs))
  {
    if cs != [] {
      assert Tame(cs[0]);
      ExpandNames(cs[1..]);
    }
  }

  lemma {:induction false} ExpandConcat(x: seq<string>, y: seq<string>)
    ensures Expand(x + y) == Expand(x) + Expand(y)
  {
    if x == [] {
      assert x + y == y;
    } else {
      ExpandConcat(x[1..], y);
      assert (x + y)[1..] == x[1..] + y && (x + y)[0] == x[0];
      Assoc(Pieces(ForwardSlashes(x[0])), Expand(x[1..]), Expand(y));
    }
  }

  lemma {:induction false} ManyPieces(t: string)
    requires SLASH in t
    ensures |Pieces(t)| > 1
  {
    if t[0] != SLASH {
      assert SLASH in t[1..];
      ManyPieces(t[1..]);
    }
  }

  // Rewriting leaves clean names alone and makes two components or more of any other.
  lemma ExpandOne(c: string)
    requires IsName(c)
    ensures Clean(c) ==> Pieces(ForwardSlashes(c)) == [c]
    ensures !Clean(c) ==> |Pieces(ForwardSlashes(c))| > 1
  {
    if Clean(c) {
      ForwardIsClean(c);
      PiecesOfPiece(c);
    } else {
      var i :| 0 <= i < |c| && c[i] == '\\';
      assert ForwardSlashes(c)[i] == SLASH;
      ManyPieces(ForwardSlashes(c));
    }
  }

  lemma {:induction false} ExpandClean(cs: seq<string>)
    requires AllNames(cs)
    ensures AllClean(cs) ==> Expand(cs) == cs
    ensures |Expand(cs)| >= |cs|
    ensures !AllClean(cs) ==> |Expand(cs)| > |cs|
  {
    if cs != [] {
      ExpandOne(cs[0]);
      ExpandClean(cs[1..]);
      assert [cs[0]] + cs[1..] == cs;
    }
  }

  // ----- Rewriting a normalised path of tame names --------------------------------------------------

  lemma {:induction false} FirstPiece(t: string) returns (v: string)
    requires |Pieces(t)| > 1
    ensures var u := Pieces(t)[0]; t == u + [SLASH] + v && Pieces(t) == [u] + Pieces(v)
  {
    if t[0] == SLASH {
      v := t[1..];
    } else {
      v := FirstPiece(t[1..]);
    }
  }

  lemma {:induction false} OnlyPiece(t: string)
    requires |Pieces(t)| == 1
    ensures Pieces(t) == [t]
  {
    if t != "" && t[0] != SLASH {
      OnlyPiece(t[1..]);
      assert [t[0]] + t[1..] == t;
    }
  }

  lemma PieceStart(t: string)
    requires AllNames(Pieces(t))
    ensures t != "" && t[0] != SLASH
  {
    assert IsName(Pieces(t)[0]);
  }

  lemma {:induction false} PieceEnd(t: string)
    requires t != "" && t[|t| - 1] == SLASH
    ensures Pieces(t)[|Pieces(t)| - 1] == ""
  {
    if |t| > 1 {
      PieceEnd(t[1..]);
    } else {
      assert t[1..] == "";
    }
  }

  // Joining a string is joining its pieces one after the other.
  lemma {:induction false} JoinPieces(y: string, t: string)
    requires y != "" && AllNames(Pieces(t))
    ensures JoinAll(y, Pieces(t)) == Join(y, t)
    decreases |t|
  {
    var q := Pieces(t);
    if |q| == 1 {
      OnlyPiece(t);
      assert JoinAll(Join(y, t), q[1..]) == Join(y, t);
    } else {
      var v := FirstPiece(t);
      var u := q[0];
      assert q[1..] == Pieces(v) && IsName(u);
      assert forall i :: 0 <= i < |Pieces(v)| ==> Pieces(v)[i] == q[i + 1];
      JoinPieces(Join(y, u), v);
      PieceStart(v);
      PieceStart(t);
      JoinTwice(y, u, v);
    }
  }

  lemma JoinTwice(y: string, u: string, v: string)
    requires y != "" && IsName(u) && v != "" && v[0] != SLASH
    ensures Join(Join(y, u), v) == Join(y, u + [SLASH] + v)
  {
    var yu := Join(y, u);
    assert yu[|yu| - 1] == u[|u| - 1] != SLASH;
    if y[|y| - 1] == SLASH {
      assert (y + u) + [SLASH] + v == y + (u + [SLASH] + v);
    } else {
      assert (y + [SLASH] + u) + [SLASH] + v == y + [SLASH] + (u + [SLASH] + v);
    }
  }

  lemma ForwardConcat(x: string, y: string)
    ensures ForwardSlashes(x + y) == ForwardSlashes(x) + ForwardSlashes(y)
  {
  }

  // A tame name neither starts nor ends with a separator of either kind.
  lemma TameEnds(c: string)
    requires Tame(c)
    ensures c != "" && ForwardSlashes(c)[0] != SLASH && ForwardSlashes(c)[|c| - 1] != SLASH
  {
    var t := ForwardSlashes(c);
    PieceStart(t);
    assert IsName(Pieces(t)[|Pieces(t)| - 1]);
    if t[|t| - 1] == SLASH { PieceEnd(t); }
  }

  lemma ForwardJoin(x: string, c: string)
    requires x != "" && x[|x| - 1] != '\\' && Tame(c) && IsName(c)
    ensures ForwardSlashes(Join(x, c)) == Join(ForwardSlashes(x), ForwardSlashes(c))
    ensures var p := Join(x, c); p != "" && p[|p| - 1] != '\\'
  {
    TameEnds(c);
    ForwardConcat(x, c);
    ForwardConcat(x + [SLASH], c);
    ForwardConcat(x, [SLASH]);
    assert ForwardSlashes([SLASH]) == [SLASH];
    var p := Join(x, c);
    assert p[|p| - 1] == c[|c| - 1];
  }

  lemma {:induction false} ForwardJoinAll(x: string, cs: seq<string>)
    requires x != "" && x[|x| - 1] != '\\' && AllTame(cs) && AllNames(cs)
    ensures ForwardSlashes(JoinAll(x, cs)) == JoinAll(ForwardSlashes(x), Expand(cs))
    decreases |cs|
  {
    if cs != [] {
      var t := ForwardSlashes(cs[0]);
      assert Tame(cs[0]) && IsName(cs[0]);
      ForwardJoin(x, cs[0]);
      ForwardJoinAll(Join(x, cs[0]), cs[1..]);
      JoinPieces(ForwardSlashes(x), t);
      JoinAllConcat(ForwardSlashes(x), Pieces(t), Expand(cs[1..]));
    }
  }

  lemma RewrittenIsNormal(p: string, r: string, cs: seq<string>)
    requires IsNormal(p, r, cs) && AllTame(cs)
    ensures IsNormal(ForwardSlashes(p), r, Expand(cs))
  {
    ForwardIsClean(r);
    ForwardJoinAll(r, cs);
    ExpandNames(cs);
  }

  // ----- The exact condition -----------------------------------------------------------------------

  // As many steps up as there are, or as asked for.
  lemma {:induction false} WalkUpMost(at: seq<string>, n: nat)
    ensures Walk(at, Ups(n)) == if n <= |at| then at[..|at| - n] else []
    decreases n
  {
    if n <= |at| {
      WalkUp(at, n);
    } else {
      assert Ups(n)[1..] == Ups(n - 1);
      WalkUpMost(Move(at, ".."), n - 1);
    }
  }

  lemma WalkSegments(a: seq<string>, up: nat, names: seq<string>)
    requires AllNames(names)
    ensures Walk(a, Ups(up) + names) == (if up <= |a| then a[..|a| - up] else []) + names
  {
    WalkConcat(a, Ups(up), names);
    WalkUpMost(a, up);
    WalkDown(Walk(a, Ups(up)), names);
  }

  // Below their common part neither path has a backslash; or dest has none at all and the
  // rewritten paths have nothing in common, so that the way up ends at the root in any case.
  predicate Untouched(a: seq<string>, b: seq<string>) {
    var p := Common(a, b);
    AllClean(b[p..]) && (AllClean(a[p..]) || (p == 0 && Common(Expand(a), Expand(b)) == 0))
  }

  // The rewritten paths in terms of the common part of the paths and what is below it.
  lemma Expanded(a: seq<string>, b: seq<string>)
    ensures var p := Common(a, b); var e := Expand(a[..p]);
      Expand(a) == e + Expand(a[p..]) && Expand(b) == e + Expand(b[p..])
  {
    var p := Common(a, b);
    ExpandConcat(a[..p], a[p..]);
    ExpandConcat(b[..p], b[p..]);
    assert a == a[..p] + a[p..] && b == b[..p] + b[p..];
  }

  lemma CommonOfConcat(e: seq<string>, x: seq<string>, y: seq<string>)
    ensures |e| <= Common(e + x, e + y)
    ensures (x != [] && y != [] && x[0] == y[0]) || Common(e + x, e + y) == |e|
  {
    assert (e + x)[..|e|] == e == (e + y)[..|e|];
    CommonIsLongest(e + x, e + y, |e|);
    if x == [] || y == [] || x[0] != y[0] { CommonIs(e + x, e + y, |e|); }
  }

  // The rewritten paths share the rewritten common part, and more only if one of the
  // remainders has changed.
  lemma CommonExpanded(a: seq<string>, b: seq<string>)
    requires AllNames(a) && AllNames(b)
    ensures var p := Common(a, b); var e := |Expand(a[..p])|;
      && e <= Common(Expand(a), Expand(b))
      && |Expand(a)| == e + |Expand(a[p..])| && |Expand(b)| == e + |Expand(b[p..])|
      && (AllClean(a[p..]) && AllClean(b[p..]) ==> Common(Expand(a), Expand(b)) == e)
      && (AllClean(b[p..]) ==> Expand(b)[e..] == b[p..])
  {
    var p := Common(a, b);
    Expanded(a, b);
    CommonOfConcat(Expand(a[..p]), Expand(a[p..]), Expand(b[p..]));
    ExpandClean(a[p..]);
    ExpandClean(b[p..]);
  }

  lemma LeadUntouched(a: seq<string>, b: seq<string>)
    requires AllNames(a) && AllNames(b)
    requires AllClean(a[Common(a, b)..]) && AllClean(b[Common(a, b)..])
    ensures Walk(a, Segments(Expand(a), Expand(b))) == b
  {
    var p := Common(a, b);
    CommonExpanded(a, b);
    ExpandClean(a[p..]);
    assert Segments(Expand(a), Expand(b)) == Ups(|a| - p) + b[p..];
    TailNames(b, p);
    WalkVia(a, b, p);
  }

  lemma LeadFromRoot(a: seq<string>, x: seq<string>, b: seq<string>)
    requires AllNames(b) && Common(x, b) == 0 && |x| >= |a|
    ensures Walk(a, Segments(x, b)) == b
  {
    assert Segments(x, b) == Ups(|x|) + b;
    WalkSegments(a, |x|, b);
    NothingAbove(a, |x|, b);
  }

  lemma NothingAbove(a: seq<string>, up: nat, b: seq<string>)
    requires up >= |a|
    ensures (if up <= |a| then a[..|a| - up] else []) + b == b
  {
  }

  // The length of the way: n components of origin, m of dest, p in common; e and x those
  // of the rewritten common part and of the rewritten rest of origin; k common to the rewritten paths.
  lemma LengthFits(n: nat, m: nat, p: nat, e: nat, x: nat, k: nat)
    requires p <= n && p <= m && e <= k <= e + x && k <= e + (m - p) && x > n - p
    requires var up := e + x - k; (if up <= n then n - up else 0) + (e + (m - p) - k) == m
    ensures p == 0 && k == e
  {
  }

  lemma LeadOnlyIf(a: seq<string>, b: seq<string>)
    requires AllNames(a) && AllNames(b) && AllTame(b)
    requires Walk(a, Segments(Expand(a), Expand(b))) == b && AllClean(b[Common(a, b)..])
    ensures Untouched(a, b)
  {
    var p := Common(a, b);
    if !AllClean(a[p..]) {
      ExpandNames(b);
      WayLength(a, Expand(a), Expand(b));
      CommonExpanded(a, b);
      ExpandClean(a[p..]);
      ExpandClean(b[p..]);
      LengthFits(|a|, |b|, p, |Expand(a[..p])|, |Expand(a[p..])|, Common(Expand(a), Expand(b)));
      assert a[..0] == [];
    }
  }

  lemma WayLength(a: seq<string>, x: seq<string>, y: seq<string>)
    requires AllNames(y)
    ensures var k := Common(x, y); var up := |x| - k;
      |Walk(a, Segments(x, y))| == (if up <= |a| then |a| - up else 0) + (|y| - k)
  {
    WalkSegments(a, |x| - Common(x, y), y[Common(x, y)..]);
  }

  // Between any two normalised paths of tame names and with the same root, backslashes or
  // not, the relative path resolves if and only if the rewriting has not touched what it is made from.
  lemma ResolvesIff(origin: string, dest: string, r: string, a: seq<string>, b: seq<string>)
    requires IsNormal(origin, r, a) && IsNormal(dest, r, b) && AllTame(a) && AllTame(b)
    ensures Resolves(origin, dest) <==> Untouched(a, b)
  {
    var x, y := Expand(a), Expand(b);
    var rel := RelativeOf(origin, dest);
    RewrittenIsNormal(origin, r, a);
    RewrittenIsNormal(dest, r, b);
    RelativeOfNormal(origin, dest, r, x, r, y);
    StepsOfRelative(x, y);
    WalkFrom(origin, rel, r, a);
    StepsOfNormal(dest, r, b);
    RootOfNormal(dest, r, b);
    if Resolves(origin, dest) {
      ResolvesOnlyIfClean(origin, dest, r, a, r, b);
      LeadOnlyIf(a, b);
    }
    if Untouched(a, b) {
      if AllClean(a[Common(a, b)..]) {
        LeadUntouched(a, b);
      } else {
        assert b[0..] == b;
        ExpandClean(a);
        ExpandClean(b);
        LeadFromRoot(a, x, b);
      }
    }
  }

  lemma ResolvesIffOtherRoot(origin: string, dest: string, r: string, a: seq<string>, s: string, b: seq<string>)
    requires IsNormal(origin, r, a) && IsNormal(dest, s, b) && AllTame(a) && AllTame(b) && r != s
    ensures Resolves(origin, dest) <==> Clean(dest)
  {
    RewrittenIsNormal(origin, r, a);
    RewrittenIsNormal(dest, s, b);
    SplitAllParts(ForwardSlashes(origin), r, Expand(a));
    SplitAllParts(ForwardSlashes(dest), s, Expand(b));
    ResolvesIffStartsDiffer(origin, dest, r, a, s, b);
  }
}
