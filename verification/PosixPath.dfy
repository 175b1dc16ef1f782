// The functions of Python's posixpath that the project generator calls, on strings, and
// what they do on normalised paths.
module PosixPath {
  import opened Sequences

  const SLASH := '/'

  // p.rfind('/') + 1.
  function AfterLastSlash(p: string): (i: nat)
    ensures i <= |p|
    ensures i == 0 || p[i - 1] == SLASH
    ensures SLASH !in p[i..]
  {
    if p == "" then 0
    else if p[|p| - 1] == SLASH then |p|
    else AfterLastSlash(p[..|p| - 1])
  }

  // p.rstrip('/').
  function StripSlashes(p: string): (s: string)
    ensures |s| <= |p| && s == p[..|s|]
    ensures s != "" ==> s[|s| - 1] != SLASH
    ensures p != "" && p[|p| - 1] == SLASH ==> |s| < |p|
    ensures p != "" && p[|p| - 1] != SLASH ==> s == p
  {
    if p != "" && p[|p| - 1] == SLASH then StripSlashes(p[..|p| - 1]) else p
  }

  predicate AllSlashes(p: string) {
    forall i :: 0 <= i < |p| ==> p[i] == SLASH
  }

  // os.path.split.
  function Split(p: string): (r: (string, string))
    ensures |r.0| <= |p|
    ensures r.0 != p ==> |r.0| < |p|
  {
    var i := AfterLastSlash(p);
    var head, tail := p[..i], p[i..];
    if head != "" && !AllSlashes(head) then (StripSlashes(head), tail) else (head, tail)
  }

  function Dirname(p: string): string {
    Split(p).0
  }

  // os.path.join of two parts.
  function Join(a: string, b: string): string {
    if b != "" && b[0] == SLASH then b
    else if a == "" || a[|a| - 1] == SLASH then a + b
    else a + [SLASH] + b
  }

  // os.path.join(acc, *segs).
  function JoinAll(acc: string, segs: seq<string>): string
    decreases |segs|
  {
    if segs == [] then acc else JoinAll(Join(acc, segs[0]), segs[1..])
  }

  // ----- Components -----------------------------------------------------------------------------

  // p.split('/').
  function Pieces(p: string): (r: seq<string>)
    ensures r != []
  {
    if p == "" then [""]
    else
      var rest := Pieces(p[1..]);
      if p[0] == SLASH then [""] + rest else [[p[0]] + rest[0]] + rest[1..]
  }

  function Significant(pieces: seq<string>): seq<string> {
    if pieces == [] then []
    else (if pieces[0] == "" || pieces[0] == "." then [] else [pieces[0]]) + Significant(pieces[1..])
  }

  // The steps a path prescribes: empty pieces and "." prescribe none.
  function Steps(p: string): seq<string> {
    Significant(Pieces(p))
  }

  // A step that Steps reads back: not empty, not ".", and without a slash.
  predicate IsStep(c: string) {
    c != "" && c != "." && SLASH !in c
  }

  predicate AllSteps(cs: seq<string>) {
    forall i :: 0 <= i < |cs| ==> IsStep(cs[i])
  }

  // A component of a normalised path.
  predicate IsName(c: string) {
    IsStep(c) && c != ".."
  }

  predicate AllNames(cs: seq<string>) {
    forall i :: 0 <= i < |cs| ==> IsName(cs[i])
  }

  // normpath keeps one leading slash or exactly two.
  predicate IsRoot(r: string) {
    r == "/" || r == "//"
  }

  lemma {:induction false} PiecesOfPiece(c: string)
    requires SLASH !in c
    ensures Pieces(c) == [c]
  {
    if c != "" {
      PiecesOfPiece(c[1..]);
      assert [c[0]] + c[1..] == c;
    }
  }

  lemma {:induction false} PiecesJoin(a: string, b: string)
    ensures Pieces(a + [SLASH] + b) == Pieces(a) + Pieces(b)
  {
    if a == "" {
      assert a + [SLASH] + b == [SLASH] + b;
      assert ([SLASH] + b)[1..] == b;
    } else {
      var p, front, back := a + [SLASH] + b, Pieces(a[1..]), Pieces(b);
      PiecesJoin(a[1..], b);
      assert p[1..] == a[1..] + [SLASH] + b && p[0] == a[0];
      if a[0] == SLASH {
        Assoc([""], front, back);
      } else {
        assert (front + back)[0] == front[0] && (front + back)[1..] == front[1..] + back;
        Assoc([[a[0]] + front[0]], front[1..], back);
      }
    }
  }

  lemma {:induction false} SignificantConcat(a: seq<string>, b: seq<string>)
    ensures Significant(a + b) == Significant(a) + Significant(b)
  {
    if a == [] {
      assert a + b == b;
    } else {
      SignificantConcat(a[1..], b);
      assert (a + b)[1..] == a[1..] + b && (a + b)[0] == a[0];
      Assoc(if a[0] == "" || a[0] == "." then [] else [a[0]], Significant(a[1..]), Significant(b));
    }
  }

  lemma StepsOfStep(c: string)
    requires IsStep(c)
    ensures Steps(c) == [c]
  {
    PiecesOfPiece(c);
    assert Significant([c][1..]) == [];
  }

  lemma StepsSlash(a: string, b: string)
    ensures Steps(a + [SLASH] + b) == Steps(a) + Steps(b)
  {
    PiecesJoin(a, b);
    SignificantConcat(Pieces(a), Pieces(b));
  }

  lemma NoSteps()
    ensures Steps("") == [] && Steps("/") == [] && Steps("//") == [] && Steps(".") == []
  {
    StepsSlash("", "");
    StepsSlash("/", "");
    assert "" + [SLASH] + "" == "/" && "/" + [SLASH] + "" == "//";
    PiecesOfPiece(".");
    assert Significant(["."][1..]) == [];
  }

  lemma StepsTrailing(a: string, b: string)
    ensures Steps(a + [SLASH] + b) == Steps(a + [SLASH]) + Steps(b)
  {
    NoSteps();
    StepsSlash(a, b);
    StepsSlash(a, "");
    assert a + [SLASH] + "" == a + [SLASH];
    assert Steps(a) + [] == Steps(a);
  }

  // Joining a relative part adds its steps.
  lemma StepsJoin(a: string, b: string)
    requires b == "" || b[0] != SLASH
    ensures Steps(Join(a, b)) == Steps(a) + Steps(b)
  {
    if a == "" {
      NoSteps();
      assert a + b == b;
      assert [] + Steps(b) == Steps(b);
    } else if a[|a| - 1] == SLASH {
      var a' := a[..|a| - 1];
      assert a == a' + [SLASH];
      StepsTrailing(a', b);
    } else {
      StepsSlash(a, b);
    }
  }

  lemma {:induction false} StepsJoinAll(acc: string, segs: seq<string>)
    requires AllSteps(segs)
    ensures Steps(JoinAll(acc, segs)) == Steps(acc) + segs
    decreases |segs|
  {
    if segs != [] {
      StepsOfStep(segs[0]);
      StepsJoin(acc, segs[0]);
      StepsJoinAll(Join(acc, segs[0]), segs[1..]);
      Assoc(Steps(acc), [segs[0]], segs[1..]);
      assert segs == [segs[0]] + segs[1..];
    }
  }

  // Different components below the same directory give different paths.
  lemma PathsDiffer(acc: string, cs: seq<string>, ds: seq<string>)
    requires AllSteps(cs) && AllSteps(ds) && cs != ds
    ensures JoinAll(acc, cs) != JoinAll(acc, ds)
  {
    StepsJoinAll(acc, cs);
    StepsJoinAll(acc, ds);
    var n := |Steps(acc)|;
    assert (Steps(acc) + cs)[n..] == cs && (Steps(acc) + ds)[n..] == ds;
  }

  lemma {:induction false} JoinAllSnoc(acc: string, segs: seq<string>, x: string)
    ensures JoinAll(acc, segs + [x]) == Join(JoinAll(acc, segs), x)
    decreases |segs|
  {
    if segs == [] {
      assert (segs + [x])[1..] == [];
    } else {
      JoinAllSnoc(Join(acc, segs[0]), segs[1..], x);
      assert (segs + [x])[1..] == segs[1..] + [x];
    }
  }

  lemma {:induction false} JoinAllConcat(acc: string, a: seq<string>, b: seq<string>)
    ensures JoinAll(acc, a + b) == JoinAll(JoinAll(acc, a), b)
    decreases |a|
  {
    if a == [] {
      assert a + b == b;
    } else {
      JoinAllConcat(Join(acc, a[0]), a[1..], b);
      assert (a + b)[1..] == a[1..] + b;
    }
  }

  // ----- Backslashes ------------------------------------------------------------------------------

  // path.replace('\\', '/').
  function ForwardSlashes(p: string): string {
    seq(|p|, i requires 0 <= i < |p| => if p[i] == '\\' then SLASH else p[i])
  }

  predicate Clean(p: string) {
    '\\' !in p
  }

  predicate AllClean(q: seq<string>) {
    forall i :: 0 <= i < |q| ==> Clean(q[i])
  }

  lemma ForwardIsClean(p: string)
    ensures Clean(ForwardSlashes(p))
    ensures Clean(p) ==> ForwardSlashes(p) == p
  {
    if Clean(p) { assert forall i :: 0 <= i < |p| ==> p[i] in p; }
  }

  lemma {:induction false} PiecesClean(p: string)
    requires Clean(p)
    ensures AllClean(Pieces(p))
  {
    if p != "" {
      PiecesClean(p[1..]);
      assert Clean([p[0]] + Pieces(p[1..])[0]);
    }
  }

  lemma {:induction false} SignificantClean(q: seq<string>)
    requires AllClean(q)
    ensures AllClean(Significant(q))
  {
    if q != [] { SignificantClean(q[1..]); }
  }

  lemma StepsClean(p: string)
    requires Clean(p)
    ensures AllClean(Steps(p))
  {
    PiecesClean(p);
    SignificantClean(Pieces(p));
  }

  lemma {:induction false} JoinAllClean(acc: string, q: seq<string>)
    requires Clean(acc) && AllClean(q)
    ensures Clean(JoinAll(acc, q))
    decreases |q|
  {
    if q != [] {
      assert Clean(q[0]);
      JoinAllClean(Join(acc, q[0]), q[1..]);
    }
  }

  // ----- Taking a normalised path apart -------------------------------------------------------------

  lemma {:induction false} AfterLastSlashIs(u: string, c: string)
    requires SLASH !in c && (u == "" || u[|u| - 1] == SLASH)
    ensures AfterLastSlash(u + c) == |u|
    decreases |c|
  {
    if c == "" {
      assert u + c == u;
    } else {
      AfterLastSlashIs(u, c[..|c| - 1]);
      assert (u + c)[..|u + c| - 1] == u + c[..|c| - 1];
    }
  }

  lemma SplitJoin(a: string, c: string)
    requires IsStep(c) && (IsRoot(a) || (a != "" && a[|a| - 1] != SLASH))
    ensures Split(Join(a, c)) == (a, c)
  {
    if IsRoot(a) {
      AfterLastSlashIs(a, c);
      assert (a + c)[..|a|] == a && (a + c)[|a|..] == c;
    } else {
      var u := a + [SLASH];
      var p := u + c;
      AfterLastSlashIs(u, c);
      assert p[..|u|] == u && p[|u|..] == c;
      assert u[|a| - 1] != SLASH;
      assert u[..|u| - 1] == a;
      assert StripSlashes(u) == StripSlashes(a) == a;
    }
  }

  lemma {:induction false} EndsInName(acc: string, cs: seq<string>)
    requires cs != [] && AllSteps(cs)
    ensures var p := JoinAll(acc, cs); p != "" && p[|p| - 1] != SLASH
    ensures acc != "" && acc[0] == SLASH ==> JoinAll(acc, cs)[0] == SLASH
    decreases |cs|
  {
    var a := Join(acc, cs[0]);
    assert a[|a| - 1] == cs[0][|cs[0]| - 1];
    if |cs| > 1 { EndsInName(a, cs[1..]); }
  }

  // os.path.split undoes the last join of a normalised path.
  lemma SplitPath(r: string, cs: seq<string>)
    requires IsRoot(r) && AllSteps(cs) && cs != []
    ensures Split(JoinAll(r, cs)) == (JoinAll(r, cs[..|cs| - 1]), cs[|cs| - 1])
  {
    var init, last := cs[..|cs| - 1], cs[|cs| - 1];
    assert init + [last] == cs;
    JoinAllSnoc(r, init, last);
    if init != [] { EndsInName(r, init); }
    SplitJoin(JoinAll(r, init), last);
  }

  lemma SplitRoot(r: string)
    requires IsRoot(r)
    ensures Split(r) == (r, "")
  {
  }
}
