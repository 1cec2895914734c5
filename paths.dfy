/** POSIX path handling as Node's `path` module does it: splitting on '/',
    `path.resolve` (join, drop "." and empty segments, pop on "..", restart
    on an absolute argument), rendering back to a string, and the
    string-prefix test that guards generated-file writes. */
module Paths {
  import opened Text

  /** A resolved absolute path as the sequence of its segments; [] is "/". */
  type Path = seq<string>

  /** A segment that survives normalisation: not empty, not "." or "..", no '/'. */
  predicate IsName(x: string) {
    x != "" && x != "." && x != ".." && '/' !in x
  }

  /** Every segment of `p` is a name: what `path.resolve` produces. */
  predicate Canonical(p: Path) {
    forall i :: 0 <= i < |p| ==> IsName(p[i])
  }

  /** No part contains a separator. */
  predicate NoSeparators(parts: seq<string>) {
    forall i :: 0 <= i < |parts| ==> '/' !in parts[i]
  }

  /** `parts.join('/')`. */
  function Join(parts: seq<string>): string
    requires |parts| >= 1
  {
    if |parts| == 1 then parts[0] else parts[0] + "/" + Join(parts[1..])
  }

  /** `s.split('/')`: the pieces between separators, which join back to `s`. */
  function Split(s: string): (r: seq<string>)
    ensures |r| >= 1 && NoSeparators(r)
    ensures Join(r) == s
  {
    if s == [] then [""]
    else
      var rest := Split(s[1..]);
      if s[0] == '/' then
        assert Join([""] + rest) == "/" + Join(rest);
        [""] + rest
      else
        var r := [[s[0]] + rest[0]] + rest[1..];
        assert r[1..] == rest[1..];
        assert Join(r) == [s[0]] + Join(rest);
        r
  }

  /** Splitting a joined sequence of separator-free parts gives the parts back. */
  lemma {:induction false} SplitJoin(parts: seq<string>)
    requires |parts| >= 1 && NoSeparators(parts)
    ensures Split(Join(parts)) == parts
  {
    if |parts| == 1 {
      SplitNoSeparator(parts[0]);
    } else {
      var rest := parts[1..];
      NoSeparatorsTail(parts);
      SplitJoin(rest);
      SplitNameSlash(parts[0], Join(rest));
      assert Join(parts) == parts[0] + ("/" + Join(rest));
      assert parts == [parts[0]] + rest;
    }
  }

  /** A leading separator splits off an empty first piece. */
  lemma SplitSlash(u: string)
    ensures Split("/" + u) == [""] + Split(u)
  {
    assert ("/" + u)[1..] == u;
  }

  /** A separator-free name followed by a separator is a piece of its own. */
  lemma SplitNameSlash(x: string, u: string)
    requires '/' !in x
    ensures Split(x + ("/" + u)) == [x] + Split(u)
  {
    SplitAfterName(x, "/" + u);
    SplitSlash(u);
    var su := Split(u);
    assert ([""] + su)[0] == "" && ([""] + su)[1..] == su;
    assert x + "" == x;
  }

  /** A separator-free string splits into itself alone. */
  lemma {:induction false} SplitNoSeparator(x: string)
    requires '/' !in x
    ensures Split(x) == [x]
  {
    if x != [] {
      assert '/' !in x[1..] by {
        forall c | c in x[1..] ensures c != '/' {
          assert c in x;
        }
      }
      SplitNoSeparator(x[1..]);
      assert [x[0]] + x[1..] == x;
    }
  }

  /** A separator-free head glues onto the first piece of the tail's split. */
  lemma {:induction false} SplitAfterName(x: string, t: string)
    requires '/' !in x
    ensures Split(x + t) == [x + Split(t)[0]] + Split(t)[1..]
  {
    if x != [] {
      assert '/' !in x[1..] by {
        forall c | c in x[1..] ensures c != '/' {
          assert c in x;
        }
      }
      SplitAfterName(x[1..], t);
      SplitAfterNameStep(x, t);
    } else {
      assert x + t == t;
      var st := Split(t);
      assert x + st[0] == st[0];
      assert [st[0]] + st[1..] == st;
    }
  }

  /** The step of `SplitAfterName`: one more character in front of the name. */
  lemma SplitAfterNameStep(x: string, t: string)
    requires x != [] && x[0] != '/'
    requires Split(x[1..] + t) == [x[1..] + Split(t)[0]] + Split(t)[1..]
    ensures Split(x + t) == [x + Split(t)[0]] + Split(t)[1..]
  {
    var st := Split(t);
    var u := x[1..] + t;
    HeadThenRest(x, t);
    SplitCons(x[0], u);
    var head := x[1..] + st[0];
    HeadAndTail(head, st[1..]);
    HeadThenRest(x, st[0]);
  }

  /** The head and the tail of `[h] + ys`. */
  lemma HeadAndTail<T>(h: T, ys: seq<T>)
    ensures ([h] + ys)[0] == h && ([h] + ys)[1..] == ys
  {
  }

  /** Putting the head back in front of the rest of a non-empty sequence. */
  lemma HeadThenRest<T>(x: seq<T>, y: seq<T>)
    requires x != []
    ensures [x[0]] + (x[1..] + y) == x + y
  {
    assert x == [x[0]] + x[1..];
  }

  /** One character other than a separator joins the first piece of the rest. */
  lemma SplitCons(c: char, u: string)
    requires c != '/'
    ensures Split([c] + u) == [[c] + Split(u)[0]] + Split(u)[1..]
  {
    assert ([c] + u)[0] == c && ([c] + u)[1..] == u;
  }

  /** `path.isAbsolute` on POSIX. */
  predicate IsAbsolute(s: string) {
    s != [] && s[0] == '/'
  }

  /** Folds segments onto `acc`: "" and "." are dropped, ".." pops (and stays at the root). */
  function Normalize(acc: Path, segs: seq<string>): (r: Path)
    requires Canonical(acc) && NoSeparators(segs)
    ensures Canonical(r)
    decreases segs
  {
    if segs == [] then acc
    else if segs[0] == "" || segs[0] == "." then Normalize(acc, segs[1..])
    else if segs[0] == ".." then Normalize(if acc == [] then [] else acc[..|acc| - 1], segs[1..])
    else Normalize(acc + [segs[0]], segs[1..])
  }

  /** One argument of `path.resolve` applied to the path resolved so far. */
  function ResolveStep(acc: Path, part: string): (r: Path)
    requires Canonical(acc)
    ensures Canonical(r)
  {
    Normalize(if IsAbsolute(part) then [] else acc, Split(part))
  }

  /** `path.resolve(...parts)` with `cwd` as `process.cwd()`. */
  function Resolve(cwd: Path, parts: seq<string>): (r: Path)
    requires Canonical(cwd)
    ensures Canonical(r)
  {
    if parts == [] then cwd else ResolveStep(Resolve(cwd, parts[..|parts| - 1]), parts[|parts| - 1])
  }

  /** The string form of a resolved path: "/" for the root, "/a/b" otherwise. */
  function Render(p: Path): (s: string)
  {
    if p == [] then "/" else Join([""] + p)
  }

  /** The guard of `applyGeneratedFiles`: the resolved target, as a string,
      starts with the resolved workspace root, as a string. */
  predicate PrefixGuard(target: Path, root: Path) {
    StartsWith(Render(target), Render(root))
  }

  /** `p` lies at or below `root`, segment by segment. */
  predicate Within(p: Path, root: Path) {
    |root| <= |p| && p[..|root|] == root
  }

  /** Resolving the rendering of a canonical path gives the path back,
      wherever the process runs. */
  lemma RenderRoundTrip(cwd: Path, p: Path)
    requires Canonical(cwd) && Canonical(p)
    ensures Resolve(cwd, [Render(p)]) == p
  {
    assert [Render(p)][..0] == [];
    if p == [] {
      assert Split("/") == ["", ""] by {
        assert "/"[1..] == "";
      }
      assert Normalize([], ["", ""]) == Normalize([], [""]) == [] by {
        assert ["", ""][1..] == [""];
        assert [""][1..] == [];
      }
    } else {
      assert NoSeparators([""] + p) by {
        forall i | 0 <= i < |[""] + p| ensures '/' !in ([""] + p)[i] {
          if i > 0 { assert ([""] + p)[i] == p[i - 1]; }
        }
      }
      SplitJoin([""] + p);
      NormalizeCanonical([], p);
      assert ([""] + p)[1..] == p;
    }
  }

  /** Normalising names only appends them. */
  lemma {:induction false} NormalizeCanonical(acc: Path, p: Path)
    requires Canonical(acc) && Canonical(p)
    ensures Normalize(acc, p) == acc + p
    decreases p
  {
    if p != [] {
      NormalizeCanonical(acc + [p[0]], p[1..]);
      assert acc + [p[0]] + p[1..] == acc + p;
    }
  }

  /** Resolving a name below a resolved argument appends it. */
  lemma ResolveChild(cwd: Path, parts: seq<string>, name: string)
    requires Canonical(cwd) && IsName(name)
    ensures Resolve(cwd, parts + [name]) == Resolve(cwd, parts) + [name]
  {
    assert (parts + [name])[..|parts|] == parts;
    SplitNoSeparator(name);
    assert !IsAbsolute(name) by {
      assert name[0] in name;
    }
    var acc := Resolve(cwd, parts);
    assert Normalize(acc, [name]) == Normalize(acc + [name], []) by {
      assert [name][1..] == [];
    }
  }

  /** Two strings that stop at a separator: one starts with the other exactly
      when the heads are equal and the tails start alike. */
  lemma HeadsAndTails(x: string, xs: string, y: string, ys: string)
    requires '/' !in x && '/' !in y
    requires xs == [] || xs[0] == '/'
    requires ys == [] || ys[0] == '/'
    ensures ys != [] ==> (StartsWith(x + xs, y + ys) <==> x == y && StartsWith(xs, ys))
    ensures ys == [] ==> (StartsWith(x + xs, y + ys) <==> StartsWith(x, y))
  {
    if StartsWith(x + xs, y + ys) {
      if ys != [] {
        assert x == (x + xs)[..|x|] == (y + ys)[..|y|] == y;
        assert (x + xs)[|x|..] == xs;
      } else {
        assert y + ys == y;
      }
    }
    if ys != [] && x == y && StartsWith(xs, ys) {
      assert (x + xs)[..|y + ys|] == x + xs[..|ys|];
    }
  }

  /** A common leading separator does not change the prefix relation. */
  lemma SlashPrefix(u: string, v: string)
    ensures StartsWith("/" + u, "/" + v) <==> StartsWith(u, v)
  {
    if StartsWith(u, v) {
      assert ("/" + u)[..|"/" + v|] == "/" + u[..|v|];
    }
    if StartsWith("/" + u, "/" + v) {
      assert u[..|v|] == ("/" + u)[..|"/" + v|][1..];
    }
  }

  /** Agreement up to the last position of `b`, read off the heads and the tails. */
  lemma ConsAgree(r: seq<string>, b: seq<string>)
    requires |r| >= 2 && |b| >= 2
    ensures (r[0] == b[0] && |r[1..]| >= |b[1..]| && r[1..][..|b[1..]| - 1] == b[1..][..|b[1..]| - 1])
            <==> (|r| >= |b| && r[..|b| - 1] == b[..|b| - 1])
    ensures |r| >= |b| ==> r[1..][|b[1..]| - 1] == r[|b| - 1] && b[1..][|b[1..]| - 1] == b[|b| - 1]
  {
    if |r| >= |b| {
      assert r[..|b| - 1] == [r[0]] + r[1..][..|b| - 2];
      assert b[..|b| - 1] == [b[0]] + b[1..][..|b| - 2];
      if r[..|b| - 1] == b[..|b| - 1] {
        assert r[0] == r[..|b| - 1][0];
        assert r[1..][..|b| - 2] == r[..|b| - 1][1..];
        assert b[1..][..|b| - 2] == b[..|b| - 1][1..];
      }
    }
  }

  /** Against a single part, only the first part of `r` matters. */
  lemma JoinPrefixSingle(r: seq<string>, b: seq<string>)
    requires |r| >= 1 && |b| == 1 && NoSeparators(r) && NoSeparators(b)
    ensures StartsWith(Join(r), Join(b)) <==> StartsWith(r[0], b[0])
  {
    var xs := if |r| == 1 then "" else "/" + Join(r[1..]);
    assert Join(r) == r[0] + xs;
    HeadsAndTails(r[0], xs, b[0], "");
    assert b[0] + "" == Join(b);
  }

  /** A single part does not start with two or more joined parts. */
  lemma JoinPrefixShort(r: seq<string>, b: seq<string>)
    requires |r| == 1 && |b| >= 2 && NoSeparators(r) && NoSeparators(b)
    ensures !StartsWith(Join(r), Join(b))
  {
    var ys := "/" + Join(b[1..]);
    assert Join(b) == b[0] + ys;
    HeadsAndTails(r[0], "", b[0], ys);
    assert r[0] + "" == Join(r);
  }

  /** The tail of a separator-free run of parts is separator-free. */
  lemma NoSeparatorsTail(r: seq<string>)
    requires |r| >= 1 && NoSeparators(r)
    ensures NoSeparators(r[1..])
  {
    forall i | 0 <= i < |r| - 1 ensures '/' !in r[1..][i] {
      assert r[1..][i] == r[i + 1];
    }
  }

  /** With two or more parts on each side: equal heads, and the tails joined alike. */
  lemma JoinPrefixCons(r: seq<string>, b: seq<string>)
    requires |r| >= 2 && |b| >= 2 && NoSeparators(r) && NoSeparators(b)
    ensures StartsWith(Join(r), Join(b)) <==> r[0] == b[0] && StartsWith(Join(r[1..]), Join(b[1..]))
  {
    var xs := "/" + Join(r[1..]);
    var ys := "/" + Join(b[1..]);
    assert Join(r) == r[0] + xs;
    assert Join(b) == b[0] + ys;
    HeadsAndTails(r[0], xs, b[0], ys);
    SlashPrefix(Join(r[1..]), Join(b[1..]));
  }

  /** The string prefix relation on joined separator-free parts, segment by segment. */
  lemma {:induction false} JoinPrefix(r: seq<string>, b: seq<string>)
    requires |r| >= 1 && |b| >= 1 && NoSeparators(r) && NoSeparators(b)
    ensures StartsWith(Join(r), Join(b)) <==>
              |r| >= |b| && r[..|b| - 1] == b[..|b| - 1] && StartsWith(r[|b| - 1], b[|b| - 1])
  {
    if |b| == 1 {
      JoinPrefixSingle(r, b);
    } else if |r| == 1 {
      JoinPrefixShort(r, b);
    } else {
      JoinPrefixCons(r, b);
      NoSeparatorsTail(r);
      NoSeparatorsTail(b);
      JoinPrefix(r[1..], b[1..]);
      ConsAgree(r, b);
    }
  }

  /** What the prefix guard admits: everything when the root is "/", and otherwise
      exactly the paths that agree with the root up to its last segment and whose
      segment at that depth starts with the root's last segment. That covers the
      root itself and everything below it, but also a sibling such as "ws2" next
      to a root ending in "ws". */
  lemma GuardAdmits(target: Path, root: Path)
    requires Canonical(target) && Canonical(root)
    ensures PrefixGuard(target, root) <==>
              root == [] ||
              (|target| >= |root| && target[..|root| - 1] == root[..|root| - 1]
               && StartsWith(target[|root| - 1], root[|root| - 1]))
  {
    if root != [] {
      if target == [] {
        RenderLong(root);
      } else {
        GuardAdmitsBelowRoot(target, root);
      }
    }
  }

  /** `GuardAdmits` for two paths other than "/". */
  lemma GuardAdmitsBelowRoot(target: Path, root: Path)
    requires Canonical(target) && Canonical(root) && target != [] && root != []
    ensures PrefixGuard(target, root) <==>
              |target| >= |root| && target[..|root| - 1] == root[..|root| - 1]
              && StartsWith(target[|root| - 1], root[|root| - 1])
  {
    var b := [""] + root;
    var t := [""] + target;
    assert Render(root) == Join(b) && Render(target) == Join(t);
    RenderedParts(root);
    RenderedParts(target);
    JoinPrefix(t, b);
    if |target| >= |root| {
      ConsPrefix("", target, root, |root| - 1);
      assert t[|b| - 1] == target[|root| - 1] && b[|b| - 1] == root[|root| - 1];
    }
  }

  /** The parts `Render` joins for a path other than "/" hold no separator. */
  lemma RenderedParts(p: Path)
    requires Canonical(p)
    ensures NoSeparators([""] + p)
  {
    var b := [""] + p;
    forall i | 0 <= i < |b| ensures '/' !in b[i] {
      if i > 0 { assert b[i] == p[i - 1]; }
    }
  }

  /** A path other than "/" renders to at least a separator and one character. */
  lemma RenderLong(p: Path)
    requires Canonical(p) && p != []
    ensures |Render(p)| >= 2
  {
    assert Render(p) == "" + "/" + Join(p);
    assert |p[0]| >= 1;
    if |p| > 1 { assert Join(p) == p[0] + "/" + Join(p[1..]); }
  }

  /** A common head does not change whether two prefixes agree. */
  lemma ConsPrefix<T>(x: T, u: seq<T>, v: seq<T>, n: nat)
    requires n <= |u| && n <= |v|
    ensures ([x] + u)[..n + 1] == ([x] + v)[..n + 1] <==> u[..n] == v[..n]
  {
    assert ([x] + u)[..n + 1] == [x] + u[..n];
    assert ([x] + v)[..n + 1] == [x] + v[..n];
    if [x] + u[..n] == [x] + v[..n] {
      assert u[..n] == ([x] + u[..n])[1..];
      assert v[..n] == ([x] + v[..n])[1..];
    }
  }

  /** Whatever lies at or below the root passes the guard. */
  lemma GuardAdmitsWithin(target: Path, root: Path)
    requires Canonical(target) && Canonical(root) && Within(target, root)
    ensures PrefixGuard(target, root)
  {
    GuardAdmits(target, root);
    if root != [] {
      assert target[..|root| - 1] == target[..|root|][..|root| - 1];
      assert target[|root| - 1] == target[..|root|][|root| - 1];
    }
  }
  // ---- path.join and path.basename ----------------------------------------

  /** `path.join(a, b)` before normalising: an empty `a` is dropped, otherwise
      one separator goes between. Normalising the result would not change the
      location it names (`Resolve` normalises), so the model keeps it as is. */
  function Joined(a: string, b: string): string {
    if a == "" then b else a + "/" + b
  }

  /** The segments `path.normalize` keeps: "" and "." go, ".." cancels the
      name before it; with nothing to cancel it stays on a relative path and
      goes on an absolute one. */
  function NormalSegs(acc: seq<string>, segs: seq<string>, absolute: bool): seq<string>
    decreases segs
  {
    if segs == [] then acc
    else if segs[0] == "" || segs[0] == "." then NormalSegs(acc, segs[1..], absolute)
    else if segs[0] == ".." then
      if acc != [] && acc[|acc| - 1] != ".." then NormalSegs(acc[..|acc| - 1], segs[1..], absolute)
      else if absolute then NormalSegs(acc, segs[1..], absolute)
      else NormalSegs(acc + [".."], segs[1..], absolute)
    else NormalSegs(acc + [segs[0]], segs[1..], absolute)
  }

  /** `path.basename(path.normalize(s))`: the last kept segment; "." for an
      empty relative path and "" for the root. */
  function BaseName(s: string): string {
    var n := NormalSegs([], Split(s), IsAbsolute(s));
    if n == [] then (if IsAbsolute(s) then "" else ".") else n[|n| - 1]
  }

  lemma {:induction false} JoinLast(xs: seq<string>, n: string)
    requires |xs| >= 1
    ensures Join(xs + [n]) == Join(xs) + "/" + n
    decreases |xs|
  {
    if |xs| == 1 {
      assert (xs + [n])[1..] == [n];
    } else {
      JoinLast(xs[1..], n);
      assert (xs + [n])[1..] == xs[1..] + [n];
    }
  }

  /** A separator-free name after a separator splits off as the last piece. */
  lemma SplitAppendName(a: string, n: string)
    requires '/' !in n
    ensures Split(a + "/" + n) == Split(a) + [n]
  {
    var xs := Split(a);
    JoinLast(xs, n);
    assert NoSeparators(xs + [n]) by {
      forall i | 0 <= i < |xs + [n]| ensures '/' !in (xs + [n])[i] {
        if i < |xs| { assert (xs + [n])[i] == xs[i]; }
      }
    }
    SplitJoin(xs + [n]);
  }

  lemma {:induction false} NormalizeAppendName(acc: Path, segs: seq<string>, n: string)
    requires Canonical(acc) && NoSeparators(segs) && IsName(n)
    ensures NoSeparators(segs + [n])
    ensures Normalize(acc, segs + [n]) == Normalize(acc, segs) + [n]
    decreases segs
  {
    assert NoSeparators(segs + [n]) by {
      forall i | 0 <= i < |segs + [n]| ensures '/' !in (segs + [n])[i] {
        if i < |segs| { assert (segs + [n])[i] == segs[i]; }
      }
    }
    if segs == [] {
      assert [n][1..] == [];
    } else {
      var acc' := if segs[0] == "" || segs[0] == "." then acc
                  else if segs[0] == ".." then (if acc == [] then [] else acc[..|acc| - 1])
                  else acc + [segs[0]];
      assert (segs + [n])[0] == segs[0] && (segs + [n])[1..] == segs[1..] + [n];
      assert NoSeparators(segs[1..]) by {
        forall i | 0 <= i < |segs| - 1 ensures '/' !in segs[1..][i] { assert segs[1..][i] == segs[i + 1]; }
      }
      NormalizeAppendName(acc', segs[1..], n);
    }
  }

  lemma {:induction false} NormalSegsAppendName(acc: seq<string>, segs: seq<string>, n: string, absolute: bool)
    requires IsName(n)
    ensures NormalSegs(acc, segs + [n], absolute) == NormalSegs(acc, segs, absolute) + [n]
    decreases segs
  {
    if segs == [] {
      assert [n][1..] == [];
    } else {
      assert (segs + [n])[0] == segs[0] && (segs + [n])[1..] == segs[1..] + [n];
      var acc' := if segs[0] == "" || segs[0] == "." then acc
                  else if segs[0] == ".." then
                    (if acc != [] && acc[|acc| - 1] != ".." then acc[..|acc| - 1]
                     else if absolute then acc else acc + [".."])
                  else acc + [segs[0]];
      NormalSegsAppendName(acc', segs[1..], n, absolute);
    }
  }

  /** Resolving a single argument. */
  lemma ResolveOne(cwd: Path, x: string)
    requires Canonical(cwd)
    ensures NoSeparators(Split(x))
    ensures Resolve(cwd, [x]) == Normalize(if IsAbsolute(x) then [] else cwd, Split(x))
  {
    assert [x][..0] == [];
  }

  /** `path.join(a, name)` names the child `name` of what `a` names. */
  lemma JoinedChild(cwd: Path, a: string, n: string)
    requires Canonical(cwd) && IsName(n)
    ensures Resolve(cwd, [Joined(a, n)]) == Resolve(cwd, [a]) + [n]
  {
    ResolveOne(cwd, Joined(a, n));
    ResolveOne(cwd, a);
    if a == "" {
      SplitNoSeparator(n);
      assert !IsAbsolute(n) by { assert n[0] in n; }
      assert Normalize(cwd, [n]) == Normalize(cwd + [n], []) by { assert [n][1..] == []; }
      assert Normalize(cwd, [""]) == Normalize(cwd, []) by { assert [""][1..] == []; }
    } else {
      SplitAppendName(a, n);
      assert IsAbsolute(a + "/" + n) == IsAbsolute(a) by { assert (a + "/" + n)[0] == a[0]; }
      NormalizeAppendName(if IsAbsolute(a) then [] else cwd, Split(a), n);
    }
  }

  /** The base name of `path.join(a, name)` is `name`. */
  lemma BaseNameOfJoined(a: string, n: string)
    requires IsName(n)
    ensures BaseName(Joined(a, n)) == n
  {
    if a == "" {
      SplitNoSeparator(n);
      assert !IsAbsolute(n) by { assert n[0] in n; }
      assert NormalSegs([], [n], false) == NormalSegs([n], [], false) by { assert [n][1..] == []; }
    } else {
      SplitAppendName(a, n);
      NormalSegsAppendName([], Split(a), n, IsAbsolute(a + "/" + n));
    }
  }
}
