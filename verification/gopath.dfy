/** Go's `path.Join` and `path.Clean` on slash-separated byte strings.

    `Clean` is Go's purely lexical cleaning: split at every `/`, drop empty
    and `.` elements, let `..` cancel the element before it (or be dropped
    at the root, or kept when nothing can be cancelled in a relative path),
    and render the survivors joined by single slashes, with a leading `/`
    for rooted paths and `.` for an empty relative result. */
module GoPath {
  import opened Base

  const Slash: byte := 0x2F
  const Dot: byte := 0x2E
  const DotSeg: GoString := [Dot]
  const DotDot: GoString := [Dot, Dot]

  /** A path element that cleaning keeps as it is and that names a child. */
  predicate Plain(seg: GoString) {
    seg != [] && seg != DotSeg && seg != DotDot && Slash !in seg
  }

  // ---------------------------------------------------------------------
  // Splitting at slashes and joining with slashes

  /** `strings.Split(p, "/")`: n slashes give n + 1 elements. */
  function Split(p: GoString): (segs: seq<GoString>)
    ensures |segs| >= 1
    ensures forall i :: 0 <= i < |segs| ==> Slash !in segs[i]
  {
    if p == [] then [[]]
    else
      var rest := Split(p[1..]);
      if p[0] == Slash then [[]] + rest
      else [[p[0]] + rest[0]] + rest[1..]
  }

  /** `strings.Join(segs, "/")`. */
  function JoinAll(segs: seq<GoString>): GoString {
    if segs == [] then []
    else if |segs| == 1 then segs[0]
    else segs[0] + [Slash] + JoinAll(segs[1..])
  }

  lemma {:induction false} SplitNoSlash(p: GoString)
    requires Slash !in p
    ensures Split(p) == [p]
  {
    if p != [] {
      SplitNoSlash(p[1..]);
      assert [p[0]] + p[1..] == p;
    }
  }

  /** Splitting distributes over a separating slash. */
  lemma {:induction false} SplitAroundSlash(a: GoString, b: GoString)
    ensures Split(a + [Slash] + b) == Split(a) + Split(b)
  {
    if a == [] {
      assert a + [Slash] + b == [Slash] + b;
      assert ([Slash] + b)[1..] == b;
    } else {
      var p := a + [Slash] + b;
      assert p[0] == a[0];
      assert p[1..] == a[1..] + [Slash] + b;
      SplitAroundSlash(a[1..], b);
    }
  }

  /** Joining then splitting gives the elements back. */
  lemma {:induction false} SplitJoinAll(segs: seq<GoString>)
    requires |segs| >= 1
    requires forall i :: 0 <= i < |segs| ==> Slash !in segs[i]
    ensures Split(JoinAll(segs)) == segs
  {
    if |segs| == 1 {
      SplitNoSlash(segs[0]);
    } else {
      SplitJoinAll(segs[1..]);
      SplitAroundSlash(segs[0], JoinAll(segs[1..]));
      SplitNoSlash(segs[0]);
      assert [segs[0]] + segs[1..] == segs;
    }
  }

  /** Prefixing a byte to the first element prefixes it to the joined path. */
  lemma JoinAllConsByte(c: byte, rest: seq<GoString>)
    requires rest != []
    ensures JoinAll([[c] + rest[0]] + rest[1..]) == [c] + JoinAll(rest)
  {
    var segs := [[c] + rest[0]] + rest[1..];
    assert segs[0] == [c] + rest[0];
    if |rest| > 1 {
      assert segs[1..] == rest[1..];
    }
  }

  /** Splitting then joining gives the path back. */
  lemma {:induction false} JoinAllSplit(p: GoString)
    ensures JoinAll(Split(p)) == p
  {
    if p != [] {
      JoinAllSplit(p[1..]);
      var rest := Split(p[1..]);
      if p[0] == Slash {
        assert JoinAll([[]] + rest) == [] + [Slash] + JoinAll(rest);
      } else {
        JoinAllConsByte(p[0], rest);
      }
      assert [p[0]] + p[1..] == p;
    }
  }

  lemma {:induction false} JoinAllSnoc(segs: seq<GoString>, last: GoString)
    requires segs != []
    ensures JoinAll(segs + [last]) == JoinAll(segs) + [Slash] + last
  {
    if |segs| == 1 {
      assert segs + [last] == [segs[0], last];
    } else {
      assert (segs + [last])[1..] == segs[1..] + [last];
      JoinAllSnoc(segs[1..], last);
    }
  }

  // ---------------------------------------------------------------------
  // Resolving `.` and `..`

  /** One element of the cleaning loop applied to the elements kept so far. */
  function Step(stack: seq<GoString>, seg: GoString, rooted: bool): seq<GoString> {
    if seg == [] || seg == DotSeg then stack
    else if seg == DotDot then
      if |stack| > 0 && stack[|stack| - 1] != DotDot then stack[..|stack| - 1]
      else if rooted then stack
      else stack + [DotDot]
    else stack + [seg]
  }

  /** The cleaning loop over the remaining elements, left to right. */
  function ResolveFrom(stack: seq<GoString>, segs: seq<GoString>, rooted: bool): seq<GoString>
    decreases |segs|
  {
    if segs == [] then stack
    else ResolveFrom(Step(stack, segs[0], rooted), segs[1..], rooted)
  }

  /** What the cleaning loop can leave behind: named elements, preceded in a
      relative path by the `..` elements nothing could cancel. */
  ghost predicate Resolved(stack: seq<GoString>, rooted: bool) {
    && (forall i :: 0 <= i < |stack| ==> Plain(stack[i]) || (!rooted && stack[i] == DotDot))
    && (forall i, j :: 0 <= i < j < |stack| && stack[j] == DotDot ==> stack[i] == DotDot)
  }

  lemma StepResolved(stack: seq<GoString>, seg: GoString, rooted: bool)
    requires Resolved(stack, rooted)
    requires Slash !in seg
    ensures Resolved(Step(stack, seg, rooted), rooted)
  {
    var s := Step(stack, seg, rooted);
    if seg == DotDot && |stack| > 0 && stack[|stack| - 1] != DotDot {
      assert s == stack[..|stack| - 1];
      assert forall i :: 0 <= i < |s| ==> s[i] == stack[i];
    } else if seg != [] && seg != DotSeg && seg != DotDot {
      assert s == stack + [seg];
      assert forall i :: 0 <= i < |stack| ==> s[i] == stack[i];
    }
  }

  lemma {:induction false} ResolveFromResolved(stack: seq<GoString>, segs: seq<GoString>, rooted: bool)
    requires Resolved(stack, rooted)
    requires forall i :: 0 <= i < |segs| ==> Slash !in segs[i]
    ensures Resolved(ResolveFrom(stack, segs, rooted), rooted)
    decreases |segs|
  {
    if segs != [] {
      StepResolved(stack, segs[0], rooted);
      ResolveFromResolved(Step(stack, segs[0], rooted), segs[1..], rooted);
    }
  }

  /** Elements that are already resolved pass through the loop unchanged. */
  lemma {:induction false} ResolveFromFixed(stack: seq<GoString>, segs: seq<GoString>, rooted: bool)
    requires Resolved(stack + segs, rooted)
    ensures ResolveFrom(stack, segs, rooted) == stack + segs
    decreases |segs|
  {
    if segs != [] {
      var all := stack + segs;
      assert all[|stack|] == segs[0];
      if segs[0] == DotDot {
        if |stack| > 0 {
          assert all[|stack| - 1] == stack[|stack| - 1];
        }
      }
      assert Step(stack, segs[0], rooted) == stack + [segs[0]];
      assert (stack + [segs[0]]) + segs[1..] == all;
      ResolveFromFixed(stack + [segs[0]], segs[1..], rooted);
    }
  }

  lemma {:induction false} ResolveFromAppend(stack: seq<GoString>, a: seq<GoString>, b: seq<GoString>, rooted: bool)
    ensures ResolveFrom(stack, a + b, rooted) == ResolveFrom(ResolveFrom(stack, a, rooted), b, rooted)
    decreases |a|
  {
    if a == [] {
      assert a + b == b;
    } else {
      assert (a + b)[0] == a[0];
      assert (a + b)[1..] == a[1..] + b;
      ResolveFromAppend(Step(stack, a[0], rooted), a[1..], b, rooted);
    }
  }

  // ---------------------------------------------------------------------
  // Clean and Join

  /** Renders resolved elements as a path. */
  function Render(rooted: bool, stack: seq<GoString>): GoString {
    if rooted then [Slash] + JoinAll(stack)
    else if stack == [] then DotSeg
    else JoinAll(stack)
  }

  /** The resolved elements of a non-empty path. */
  function Elements(p: GoString): seq<GoString>
    requires p != []
  {
    ResolveFrom([], Split(p), p[0] == Slash)
  }

  /** `path.Clean(p)`. */
  function Clean(p: GoString): GoString {
    if p == [] then DotSeg
    else Render(p[0] == Slash, Elements(p))
  }

  /** `path.Join(a, b)`: empty elements are ignored, the rest are joined with
      a slash and cleaned; joining two empty elements gives the empty string. */
  function Join(a: GoString, b: GoString): (r: GoString)
    ensures r == [] <==> a == [] && b == []
    ensures r != [] ==> Clean(r) == r
  {
    if a != [] then
      CleanIdempotent(a + [Slash] + b);
      Clean(a + [Slash] + b)
    else if b != [] then
      CleanIdempotent(b);
      Clean(b)
    else []
  }

  /** The path of child `name` inside the clean directory path `dir`. */
  function Child(dir: GoString, name: GoString): GoString {
    if dir == [] || dir == DotSeg then name
    else if dir == [Slash] then [Slash] + name
    else dir + [Slash] + name
  }

  lemma ElementsResolved(p: GoString)
    requires p != []
    ensures Resolved(Elements(p), p[0] == Slash)
  {
    ResolveFromResolved([], Split(p), p[0] == Slash);
  }

  lemma CleanRenderRoot()
    ensures Clean(Render(true, [])) == Render(true, [])
  {
    var p := Render(true, []);
    assert p == [Slash] + [];
    SplitAroundSlash([], []);
    assert Split(p) == [[], []];
    assert Step([], [], true) == [];
    assert ResolveFrom([], [[]], true) == ResolveFrom([], [], true);
    assert Elements(p) == ResolveFrom([], [[]], true);
  }

  lemma CleanRenderRooted(stack: seq<GoString>)
    requires Resolved(stack, true)
    requires stack != []
    ensures Clean(Render(true, stack)) == Render(true, stack)
  {
    var p := Render(true, stack);
    assert p == [] + [Slash] + JoinAll(stack);
    SplitAroundSlash([], JoinAll(stack));
    SplitJoinAll(stack);
    assert Split(p) == [[]] + stack;
    ResolveFromFixed([], stack, true);
    assert [] + stack == stack;
    assert Elements(p) == ResolveFrom([], stack, true);
  }

  lemma CleanRenderRelative(stack: seq<GoString>)
    requires Resolved(stack, false)
    requires stack != []
    ensures Clean(Render(false, stack)) == Render(false, stack)
  {
    var p := Render(false, stack);
    SplitJoinAll(stack);
    assert p == JoinAll(stack);
    assert |stack| == 1 ==> p == stack[0];
    assert |stack| > 1 ==> p == stack[0] + [Slash] + JoinAll(stack[1..]);
    assert p[0] == stack[0][0];
    assert stack[0][0] in stack[0];
    ResolveFromFixed([], stack, false);
    assert [] + stack == stack;
  }

  /** Resolved elements survive a render-and-clean round trip. */
  lemma CleanRender(rooted: bool, stack: seq<GoString>)
    requires Resolved(stack, rooted)
    ensures Clean(Render(rooted, stack)) == Render(rooted, stack)
  {
    if rooted {
      if stack == [] {
        CleanRenderRoot();
      } else {
        CleanRenderRooted(stack);
      }
    } else if stack == [] {
      assert Render(false, stack) == DotSeg;
      SplitNoSlash(DotSeg);
      assert Step([], DotSeg, false) == [];
      assert ResolveFrom([], [DotSeg], false) == ResolveFrom([], [], false);
      assert Elements(DotSeg) == ResolveFrom([], [DotSeg], false);
      assert Clean(DotSeg) == Render(false, []);
    } else {
      CleanRenderRelative(stack);
    }
  }

  /** Cleaning a clean path changes nothing. */
  lemma CleanIdempotent(p: GoString)
    ensures Clean(Clean(p)) == Clean(p)
  {
    if p == [] {
      CleanRender(false, []);
    } else {
      ElementsResolved(p);
      CleanRender(p[0] == Slash, Elements(p));
    }
  }

  /** A trailing slash does not change a non-empty path's meaning. */
  lemma CleanTrailingSlash(p: GoString)
    requires p != []
    ensures Clean(p + [Slash]) == Clean(p)
  {
    var q := p + [Slash];
    assert q == p + [Slash] + [];
    SplitAroundSlash(p, []);
    ResolveFromAppend([], Split(p), [[]], p[0] == Slash);
  }

  lemma ElementsChild(dir: GoString, name: GoString)
    requires dir != []
    requires Plain(name)
    ensures (dir + [Slash] + name)[0] == dir[0]
    ensures Elements(dir + [Slash] + name) == Elements(dir) + [name]
  {
    var rooted := dir[0] == Slash;
    SplitAroundSlash(dir, name);
    SplitNoSlash(name);
    ResolveFromAppend([], Split(dir), [name], rooted);
    var r := Elements(dir);
    assert ResolveFrom(r, [name], rooted) == ResolveFrom(r + [name], [], rooted);
  }

  /** A non-empty resolved stack renders to something other than the
      directory paths `Child` treats specially. */
  lemma JoinAllResolved(r: seq<GoString>, rooted: bool)
    requires Resolved(r, rooted)
    requires r != []
    ensures JoinAll(r) != [] && JoinAll(r) != DotSeg
  {
    assert r[0] in r;
    assert Plain(r[0]) || r[0] == DotDot;
    if |r| > 1 {
      assert |JoinAll(r)| >= |r[0]| + 1;
    }
  }

  lemma RenderChild(rooted: bool, r: seq<GoString>, name: GoString)
    requires Resolved(r, rooted)
    requires Plain(name)
    ensures Render(rooted, r + [name]) == Child(Render(rooted, r), name)
  {
    if r == [] {
      assert r + [name] == [name];
    } else {
      JoinAllSnoc(r, name);
      JoinAllResolved(r, rooted);
      var dir := Render(rooted, r);
      if rooted {
        assert dir == [Slash] + JoinAll(r);
        assert dir != [] && dir != DotSeg && dir != [Slash];
        assert [Slash] + (JoinAll(r) + [Slash] + name) == dir + [Slash] + name;
      } else {
        assert dir == JoinAll(r);
        RelativeNotRoot(r);
      }
    }
  }

  lemma RelativeNotRoot(r: seq<GoString>)
    requires Resolved(r, false)
    requires r != []
    ensures JoinAll(r) != [Slash]
  {
    assert r[0] in r;
    assert Slash !in r[0];
    if |r| == 1 {
      assert JoinAll(r) == r[0];
    } else {
      assert JoinAll(r)[0] == r[0][0];
    }
  }

  /** Joining a plain element onto a path appends it to the cleaned
      directory path: the child never escapes its directory. */
  lemma JoinPlainChild(dir: GoString, name: GoString)
    requires Plain(name)
    ensures Join(dir, name) == Child(Join(dir, []), name)
  {
    if dir == [] {
      SplitNoSlash(name);
      assert name[0] in name;
      assert Step([], name, false) == [name];
      assert ResolveFrom([], [name], false) == ResolveFrom([name], [], false);
      assert Elements(name) == [name];
    } else {
      ElementsChild(dir, name);
      assert dir + [Slash] + [] == dir + [Slash];
      CleanTrailingSlash(dir);
      var p := dir + [Slash] + name;
      assert Clean(p) == Render(dir[0] == Slash, Elements(p));
      ElementsResolved(dir);
      RenderChild(dir[0] == Slash, Elements(dir), name);
    }
  }
}
