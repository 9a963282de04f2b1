/** Slash-separated paths: cleaning, and relative paths between absolute ones, as the Go path/filepath library
    documents them for Unix. */
module Paths {
  import opened Basics

  const SLASH: byte := 47
  const DOT: Bytes := [46]
  const DOTDOT: Bytes := [46, 46]

  // ----- Splitting and joining

  ghost predicate Free(s: Bytes, sep: byte) {
    forall i | 0 <= i < |s| :: s[i] != sep
  }

  ghost predicate AllFree(es: seq<Bytes>, sep: byte) {
    forall i | 0 <= i < |es| :: Free(es[i], sep)
  }

  function IndexOf(s: Bytes, sep: byte): (i: nat)
    ensures i <= |s| && Free(s[..i], sep) && (i < |s| ==> s[i] == sep)
  {
    if s == [] || s[0] == sep then 0 else
      var i := 1 + IndexOf(s[1..], sep);
      assert s[..i] == [s[0]] + s[1..][..i - 1];
      i
  }

  function Split(s: Bytes, sep: byte): (es: seq<Bytes>)
    ensures es != [] && AllFree(es, sep)
    decreases |s|
  {
    var i := IndexOf(s, sep);
    if i == |s| then assert s[..i] == s; [s] else [s[..i]] + Split(s[i + 1..], sep)
  }

  function Join(es: seq<Bytes>, sep: byte): Bytes {
    if es == [] then [] else if |es| == 1 then es[0] else es[0] + [sep] + Join(es[1..], sep)
  }

  lemma SplitFirst(e: Bytes, s: Bytes, sep: byte)
    requires Free(e, sep)
    ensures Split(e + [sep] + s, sep) == [e] + Split(s, sep)
  {
    var t := e + [sep] + s;
    var i := IndexOf(t, sep);
    assert t[|e|] == sep && i == |e|;
    assert t[..i] == e && t[i + 1..] == s;
  }

  /** Splitting undoes joining. */
  lemma {:induction false} SplitJoin(es: seq<Bytes>, sep: byte)
    requires es != [] && AllFree(es, sep)
    ensures Split(Join(es, sep), sep) == es
  {
    if |es| == 1 {
      var i := IndexOf(es[0], sep);
      assert i == |es[0]| && es[0][..i] == es[0];
    } else {
      SplitJoin(es[1..], sep);
      SplitFirst(es[0], Join(es[1..], sep), sep);
    }
  }

  // ----- Cleaning

  predicate IsAbs(p: Bytes) {
    p != [] && p[0] == SLASH
  }

  /** One path element applied to the elements so far: "." stays, ".." goes up where that is possible. */
  function Enter(at: seq<Bytes>, e: Bytes, rooted: bool): seq<Bytes> {
    if e == [] || e == DOT then at
    else if e == DOTDOT && at != [] && at[|at| - 1] != DOTDOT then at[..|at| - 1]
    else if e == DOTDOT && rooted then at
    else at + [e]
  }

  function Walk(at: seq<Bytes>, es: seq<Bytes>, rooted: bool): seq<Bytes>
    decreases |es|
  {
    if es == [] then at else Walk(Enter(at, es[0], rooted), es[1..], rooted)
  }

  /** Where a path leads, element by element. */
  function Components(p: Bytes): seq<Bytes> {
    Walk([], Split(p, SLASH), IsAbs(p))
  }

  function Render(es: seq<Bytes>, rooted: bool): Bytes {
    if rooted then [SLASH] + Join(es, SLASH) else if es == [] then DOT else Join(es, SLASH)
  }

  function Clean(p: Bytes): Bytes {
    Render(Components(p), IsAbs(p))
  }

  /** Cleaned elements: names, after some ".." if the path is relative. */
  ghost predicate Normal(es: seq<Bytes>, rooted: bool) {
    && (forall i | 0 <= i < |es| :: es[i] != [] && es[i] != DOT && Free(es[i], SLASH))
    && (forall i | 0 <= i < |es| && es[i] == DOTDOT :: !rooted && forall j | 0 <= j < i :: es[j] == DOTDOT)
  }

  lemma EnterNormal(at: seq<Bytes>, e: Bytes, rooted: bool)
    requires Normal(at, rooted) && Free(e, SLASH)
    ensures Normal(Enter(at, e, rooted), rooted)
  {
    if e == DOTDOT && at != [] && at[|at| - 1] == DOTDOT {
      assert forall j | 0 <= j < |at| :: at[j] == DOTDOT;
    }
  }

  lemma {:induction false} WalkNormal(at: seq<Bytes>, es: seq<Bytes>, rooted: bool)
    requires Normal(at, rooted) && AllFree(es, SLASH)
    ensures Normal(Walk(at, es, rooted), rooted)
    decreases |es|
  {
    if es != [] {
      EnterNormal(at, es[0], rooted);
      WalkNormal(Enter(at, es[0], rooted), es[1..], rooted);
    }
  }

  /** Cleaned elements are walked as they are. */
  lemma {:induction false} WalkCleaned(at: seq<Bytes>, es: seq<Bytes>, rooted: bool)
    requires Normal(at + es, rooted)
    ensures Walk(at, es, rooted) == at + es
    decreases |es|
  {
    if es == [] {
      assert at + es == at;
    } else {
      assert (at + es)[|at|] == es[0];
      assert at != [] ==> (at + es)[|at| - 1] == at[|at| - 1];
      assert Enter(at, es[0], rooted) == at + [es[0]];
      assert at + es == (at + [es[0]]) + es[1..];
      WalkCleaned(at + [es[0]], es[1..], rooted);
    }
  }

  lemma ComponentsNormal(p: Bytes)
    ensures Normal(Components(p), IsAbs(p))
  {
    WalkNormal([], Split(p, SLASH), IsAbs(p));
  }

  /** Joined elements are walked as they are. */
  lemma WalkJoined(es: seq<Bytes>, rooted: bool)
    requires Normal(es, rooted)
    ensures Walk([], Split(Join(es, SLASH), SLASH), rooted) == es
  {
    if es == [] {
      assert Split([], SLASH) == [[]];
      assert Walk([], [[]], rooted) == Walk([], [], rooted);
    } else {
      SplitJoin(es, SLASH);
      assert [] + es == es;
      WalkCleaned([], es, rooted);
    }
  }

  lemma RootedComponents(text: Bytes)
    ensures Components([SLASH] + text) == Walk([], Split(text, SLASH), true)
  {
    assert [] + [SLASH] + text == [SLASH] + text;
    SplitFirst([], text, SLASH);
    assert ([[]] + Split(text, SLASH))[1..] == Split(text, SLASH);
  }

  lemma JoinStart(es: seq<Bytes>)
    requires es != [] && Normal(es, false)
    ensures !IsAbs(Join(es, SLASH))
  {
    assert Join(es, SLASH)[0] == es[0][0] != SLASH;
  }

  lemma DotComponents()
    ensures !IsAbs(DOT) && Components(DOT) == []
  {
    assert Split(DOT, SLASH) == [DOT];
    assert Walk([], [DOT], false) == Walk([], [], false);
  }

  /** A rendered path leads where it was rendered from. */
  lemma ComponentsOfRender(es: seq<Bytes>, rooted: bool)
    requires Normal(es, rooted)
    ensures IsAbs(Render(es, rooted)) == rooted && Components(Render(es, rooted)) == es
  {
    WalkJoined(es, rooted);
    if rooted {
      RootedComponents(Join(es, SLASH));
    } else if es == [] {
      DotComponents();
    } else {
      JoinStart(es);
    }
  }

  /** Cleaning changes neither where a path leads nor whether it is absolute. */
  lemma CleanPreserves(p: Bytes)
    ensures IsAbs(Clean(p)) == IsAbs(p) && Components(Clean(p)) == Components(p)
  {
    ComponentsNormal(p);
    ComponentsOfRender(Components(p), IsAbs(p));
  }

  lemma CleanIdempotent(p: Bytes)
    ensures Clean(Clean(p)) == Clean(p)
  {
    CleanPreserves(p);
  }

  /** Cleaned text is a canonical form. */
  lemma CleanCanonical(p: Bytes, q: Bytes)
    ensures Clean(p) == Clean(q) <==> IsAbs(p) == IsAbs(q) && Components(p) == Components(q)
  {
    CleanPreserves(p);
    CleanPreserves(q);
  }

  // ----- What cleaning means, one element at a time

  lemma {:induction false} SplitLast(s: Bytes, e: Bytes, sep: byte)
    requires Free(e, sep)
    ensures Split(s + [sep] + e, sep) == Split(s, sep) + [e]
    decreases |s|
  {
    assert Split(e, sep) == [e];
    var i := IndexOf(s, sep);
    if i == |s| {
      assert s[..i] == s;
      SplitFirst(s, e, sep);
    } else {
      var rest := s[i + 1..];
      assert s + [sep] + e == s[..i] + [sep] + (rest + [sep] + e);
      SplitFirst(s[..i], rest + [sep] + e, sep);
      SplitLast(rest, e, sep);
      assert [s[..i]] + (Split(rest, sep) + [e]) == ([s[..i]] + Split(rest, sep)) + [e];
    }
  }

  lemma {:induction false} WalkLast(at: seq<Bytes>, es: seq<Bytes>, e: Bytes, rooted: bool)
    ensures Walk(at, es + [e], rooted) == Enter(Walk(at, es, rooted), e, rooted)
    decreases |es|
  {
    if es == [] {
      assert Walk(at, [e], rooted) == Walk(Enter(at, e, rooted), [], rooted);
    } else {
      assert (es + [e])[1..] == es[1..] + [e];
      WalkLast(Enter(at, es[0], rooted), es[1..], e, rooted);
    }
  }

  lemma EnterLast(p: Bytes, e: Bytes)
    requires IsAbs(p) && Free(e, SLASH)
    ensures Components(p + [SLASH] + e) == Enter(Components(p), e, true)
  {
    SplitLast(p, e, SLASH);
    WalkLast([], Split(p, SLASH), e, true);
  }

  lemma {:induction false} JoinLast(es: seq<Bytes>, e: Bytes, sep: byte)
    ensures Join(es + [e], sep) == if es == [] then e else Join(es, sep) + [sep] + e
  {
    if |es| > 1 {
      assert (es + [e])[1..] == es[1..] + [e];
      JoinLast(es[1..], e, sep);
      assert es[0] + [sep] + (Join(es[1..], sep) + [sep] + e) == (es[0] + [sep] + Join(es[1..], sep)) + [sep] + e;
    } else if |es| == 1 {
      assert (es + [e])[1..] == [e];
    }
  }

  ghost predicate Name(n: Bytes) {
    Free(n, SLASH) && n != [] && n != DOT && n != DOTDOT
  }

  /** The elements of absolute paths, by the last thing written: a name is added, ".." drops the last element and leaves
      the root alone, and "." and further slashes change nothing. */
  lemma LastElement(p: Bytes, n: Bytes)
    requires IsAbs(p) && Name(n)
    ensures Components([SLASH]) == []
    ensures Components(p + [SLASH] + n) == Components(p) + [n]
    ensures Components(p) == [] ==> Components(p + Ascii("/..")) == []
    ensures Components(p) != [] ==> Components(p + Ascii("/..")) == Components(p)[..|Components(p)| - 1]
    ensures Components(p + Ascii("/.")) == Components(p + [SLASH]) == Components(p)
  {
    ComponentsNormal(p);
    RootedComponents([]);
    assert [SLASH] + [] == [SLASH];
    assert Walk([], [[]], true) == Walk([], [], true);
    EnterLast(p, n);
    EnterLast(p, DOTDOT);
    EnterLast(p, DOT);
    EnterLast(p, []);
    assert p + Ascii("/..") == p + [SLASH] + DOTDOT && p + Ascii("/.") == p + [SLASH] + DOT;
    assert p + [SLASH] + [] == p + [SLASH];
  }

  /** The first element, where nothing precedes it. */
  lemma FirstName(n: Bytes)
    requires Name(n)
    ensures Components([SLASH] + n) == [n]
    ensures Components(Ascii("/..")) == Components(Ascii("/.")) == []
  {
    RootedComponents(n);
    RootedComponents(DOTDOT);
    RootedComponents(DOT);
    assert Split(n, SLASH) == [n] && Split(DOTDOT, SLASH) == [DOTDOT] && Split(DOT, SLASH) == [DOT];
    forall e: Bytes ensures Walk([], [e], true) == Enter([], e, true) {
      WalkLast([], [], e, true);
      assert [] + [e] == [e];
    }
    assert Ascii("/..") == [SLASH] + DOTDOT && Ascii("/.") == [SLASH] + DOT;
  }

  /** Going up undoes going down, and the cleaned text spells the elements out. */
  lemma CleanText(p: Bytes, n: Bytes)
    requires IsAbs(p) && Name(n)
    ensures Clean(p + [SLASH] + n + Ascii("/..")) == Clean(p)
    ensures Clean([SLASH]) == [SLASH]
    ensures Clean(p + [SLASH] + n) == if Clean(p) == [SLASH] then [SLASH] + n else Clean(p) + [SLASH] + n
  {
    var down := p + [SLASH] + n;
    LastElement(p, n);
    LastElement(down, n);
    CleanCanonical(down + Ascii("/.."), p);
    var es := Components(p);
    assert (es + [n])[..|es|] == es;
    JoinLast(es, n, SLASH);
    ComponentsNormal(p);
    if es != [] {
      assert Join(es, SLASH) != [] by {
        assert es[0] != [];
      }
    }
  }

  // ----- Relative paths

  function Common(b: seq<Bytes>, t: seq<Bytes>): (c: nat)
    ensures c <= |b| && c <= |t| && b[..c] == t[..c] && (c < |b| && c < |t| ==> b[c] != t[c])
  {
    if b == [] || t == [] || b[0] != t[0] then 0 else
      var c := 1 + Common(b[1..], t[1..]);
      assert b[..c] == [b[0]] + b[1..][..c - 1] && t[..c] == [t[0]] + t[1..][..c - 1];
      c
  }

  function Ups(n: nat): (es: seq<Bytes>)
    ensures |es| == n && forall i | 0 <= i < n :: es[i] == DOTDOT
  {
    seq(n, _ => DOTDOT)
  }

  /** The path from `base` to `target`: up to where they part, then down. */
  function Rel(base: Bytes, target: Bytes): Bytes
    requires IsAbs(base) && IsAbs(target)
  {
    var b, t := Components(base), Components(target);
    var c := Common(b, t);
    if b == t then DOT else Join(Ups(|b| - c) + t[c..], SLASH)
  }

  /** The launch policy's test on a relative path. */
  predicate StaysInside(rel: Bytes) {
    rel != DOTDOT && !(DOTDOT + [SLASH] <= rel)
  }

  /** The test looks at text, but sees exactly whether the first element is "..". */
  lemma FirstElement(es: seq<Bytes>)
    requires es != [] && es[0] != [] && AllFree(es, SLASH)
    ensures StaysInside(Join(es, SLASH)) <==> es[0] != DOTDOT
  {
    var e, rel := es[0], Join(es, SLASH);
    assert |es| > 1 ==> rel == e + [SLASH] + Join(es[1..], SLASH) && rel[|e|] == SLASH;
    if DOTDOT + [SLASH] <= rel {
      assert rel[0] == 46 && rel[1] == 46 && rel[2] == SLASH;
      assert |e| == 2 && e == [rel[0], rel[1]];
    }
    if e == DOTDOT && |es| > 1 {
      assert rel[0] == 46 && rel[1] == 46 && rel[2] == SLASH;
      assert DOTDOT + [SLASH] <= rel;
    }
  }

  /** The test passes exactly when the base's elements are a prefix of the target's. */
  lemma InsideExactly(base: Bytes, target: Bytes)
    requires IsAbs(base) && IsAbs(target)
    ensures StaysInside(Rel(base, target)) <==> Components(base) <= Components(target)
  {
    var b, t := Components(base), Components(target);
    var c := Common(b, t);
    ComponentsNormal(target);
    if b != t {
      var es := Ups(|b| - c) + t[c..];
      assert b == b[..c] + b[c..] && t == t[..c] + t[c..];
      FirstElement(es);
      assert b <= t <==> c == |b|;
    }
  }
}
