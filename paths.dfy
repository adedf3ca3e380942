/** String-level path operations of a POSIX host, as the engines use them:
    `str.startswith`, `os.path.join`, `os.path.split`, `os.path.splitext`,
    `str.rstrip(os.sep)` and `os.path.relpath` (with `abspath` and `normpath`
    done on path components).  Paths are plain strings; nothing here touches
    a file system. */
module Paths {

  type Path = string

  /** Python's `s.startswith(prefix)`: a plain string-prefix test. */
  predicate StartsWith(s: string, prefix: string) {
    |prefix| <= |s| && s[..|prefix|] == prefix
  }

  /** True when `s` has no '/' at all. */
  predicate NoSep(s: string) {
    forall k :: 0 <= k < |s| ==> s[k] != '/'
  }

  /** True when `s` is made of '/' only (the empty string included). */
  predicate AllSeps(s: string) {
    forall k :: 0 <= k < |s| ==> s[k] == '/'
  }

  /** `p.rfind(c) + 1`: how many characters precede the last `c` and the `c` itself, 0 when there is none. */
  function LastEnd(p: string, c: char): (i: nat)
    ensures i <= |p|
    ensures i > 0 ==> p[i - 1] == c
  {
    if p == [] then 0
    else if p[|p| - 1] == c then |p|
    else LastEnd(p[..|p| - 1], c)
  }

  /** No `c` comes after the one `LastEnd` points past. */
  lemma {:induction false} LastEndAfter(p: string, c: char)
    ensures forall k :: LastEnd(p, c) <= k < |p| ==> p[k] != c
    decreases |p|
  {
    if p != [] && p[|p| - 1] != c {
      LastEndAfter(p[..|p| - 1], c);
    }
  }

  /** `s.rstrip('/')`. */
  function RStripSep(s: string): (r: string)
    ensures StartsWith(s, r)
    ensures r == [] || r[|r| - 1] != '/'
    ensures forall k :: |r| <= k < |s| ==> s[k] == '/'
  {
    if s != [] && s[|s| - 1] == '/' then RStripSep(s[..|s| - 1]) else s
  }

  /** `os.path.join(a, b)` for two arguments: an absolute `b` discards `a`;
      otherwise a '/' is inserted unless `a` is empty or already ends in one. */
  function Join(a: Path, b: Path): (r: Path)
    ensures StartsWith(b, "/") ==> r == b
    ensures !StartsWith(b, "/") && (a == [] || a[|a| - 1] == '/') ==> r == a + b
    ensures !StartsWith(b, "/") && a != [] && a[|a| - 1] != '/' ==> r == a + "/" + b
  {
    if StartsWith(b, "/") then b
    else if a == [] || a[|a| - 1] == '/' then a + b
    else a + "/" + b
  }

  /** `os.path.split(p)`: the tail is everything after the last '/', the head
      everything before it, with trailing separators removed unless the head
      is made of separators only. */
  function Split(p: Path): (r: (Path, string))
    ensures NoSep(r.1)
    ensures |r.0| + |r.1| <= |p| && StartsWith(p, r.0)
    ensures NoSep(p) ==> r == ([], p)
  {
    var i := LastEnd(p, '/');
    LastEndAfter(p, '/');
    assert NoSep(p) ==> i == 0;
    if i == 0 then ([], p)
    else
      var head := p[..i];
      (if !AllSeps(head) then RStripSep(head) else head, p[i..])
  }

  /** The head `split` gives: everything before the last '/', right-stripped
      of separators unless it is made of them only; between head and tail
      there are separators only, and a head that is not all separators ends
      in a non-separator. */
  lemma SplitHead(p: Path)
    ensures Split(p).1 == p[LastEnd(p, '/')..] && Basename(p) == Split(p).1 && p[|p| - |Split(p).1|..] == Split(p).1
    ensures var h := p[..LastEnd(p, '/')];
            Split(p).0 == if h != [] && !AllSeps(h) then RStripSep(h) else h
    ensures var r := Split(p);
            AllSeps(p[|r.0|..|p| - |r.1|]) && (AllSeps(r.0) || r.0[|r.0| - 1] != '/')
  {
  }

  /** `os.path.basename(p)`, which is `os.path.split(p)[1]`. */
  function Basename(p: Path): (r: string)
    ensures NoSep(r)
  {
    Split(p).1
  }

  /** `os.path.splitext(p)`: the extension starts at the last '.' of the last
      component, unless everything before that '.' in the component is dots. */
  function SplitExt(p: Path): (r: (string, string))
    ensures r.0 + r.1 == p
    ensures r.1 == [] || (r.1[0] == '.' && forall k :: 1 <= k < |r.1| ==> r.1[k] != '.' && r.1[k] != '/')
    ensures r.1 != [] ==> exists k :: LastEnd(p, '/') <= k < |r.0| && r.0[k] != '.'
  {
    var s := LastEnd(p, '/');
    var d := LastEnd(p, '.');
    LastEndAfter(p, '/');
    LastEndAfter(p, '.');
    if d > s && exists k :: s <= k < d - 1 && p[k] != '.' then
      assert p[..d - 1] + p[d - 1..] == p;
      (p[..d - 1], p[d - 1..])
    else
      (p, [])
  }

  /** The non-empty '/'-separated components of `p`:
      `[x for x in p.split('/') if x]`. */
  function Components(p: string): (r: seq<string>)
    ensures forall k :: 0 <= k < |r| ==> r[k] != [] && NoSep(r[k])
    decreases |p|
  {
    if p == [] then []
    else
      var i := LastEnd(p, '/');
      LastEndAfter(p, '/');
      if i == 0 then [p]
      else Components(p[..i - 1]) + (if p[i..] == [] then [] else [p[i..]])
  }

  /** A component that `normpath` keeps as it is. */
  predicate NormalPart(c: string) {
    c != [] && c != "." && c != ".." && NoSep(c)
  }

  predicate NormalParts(cs: seq<string>) {
    forall k :: 0 <= k < |cs| ==> NormalPart(cs[k])
  }

  /** `normpath` on the components of an absolute path: "" and "." vanish,
      ".." removes the component before it (and nothing at the root). */
  function NormFrom(stack: seq<string>, comps: seq<string>): seq<string>
    decreases |comps|
  {
    if comps == [] then stack
    else if comps[0] == [] || comps[0] == "." then NormFrom(stack, comps[1..])
    else if comps[0] == ".." then NormFrom(if stack == [] then [] else stack[..|stack| - 1], comps[1..])
    else NormFrom(stack + [comps[0]], comps[1..])
  }

  /** The components of `os.path.abspath(p)` with working directory `cwd`:
      `normpath(join(cwd, p))` split on '/' with empty parts dropped. */
  function AbsParts(cwd: Path, p: Path): seq<string> {
    NormFrom([], Components(Join(cwd, p)))
  }

  /** Length of the longest common prefix (`os.path.commonprefix` on two lists). */
  function CommonLen(a: seq<string>, b: seq<string>): (n: nat)
    ensures n <= |a| && n <= |b| && a[..n] == b[..n]
    ensures n < |a| && n < |b| ==> a[n] != b[n]
  {
    if a == [] || b == [] || a[0] != b[0] then 0
    else
      var m := CommonLen(a[1..], b[1..]);
      assert a[..m + 1] == [a[0]] + a[1..][..m];
      assert b[..m + 1] == [b[0]] + b[1..][..m];
      m + 1
  }

  function Repeat(c: string, n: nat): (r: seq<string>)
    ensures |r| == n && forall k :: 0 <= k < n ==> r[k] == c
  {
    if n == 0 then [] else Repeat(c, n - 1) + [c]
  }

  /** `os.path.join(*parts)` for one or more parts. */
  function JoinAll(parts: seq<string>): Path
    requires parts != []
  {
    if |parts| == 1 then parts[0] else Join(JoinAll(parts[..|parts| - 1]), parts[|parts| - 1])
  }

  /** `os.path.relpath(path, start)` with working directory `cwd`: go up from
      `start` to the common ancestor with "..", then down to `path`; "." when
      both name the same directory; an error for an empty `path`. */
  function RelPath(path: Path, start: Path, cwd: Path): (r: Option<Path>)
  {
    if path == [] then None else Some(RelText(AbsParts(cwd, start), AbsParts(cwd, path)))
  }

  /** The relative path from the directory with parts `s` to the one with parts `p`. */
  function RelText(s: seq<string>, p: seq<string>): Path {
    var i := CommonLen(s, p);
    var rel := Repeat("..", |s| - i) + p[i..];
    if rel == [] then "." else JoinAll(rel)
  }

  datatype Option<T> = None | Some(value: T)

  // ---------------------------------------------------------------------------
  // Lemmas

  lemma ComponentsNoSep(p: string)
    requires NoSep(p)
    ensures Components(p) == if p == [] then [] else [p]
  {
    if p != [] {
      assert LastEnd(p, '/') == 0;
    }
  }

  /** A path is absolute when its first character is a separator. */
  lemma StartsWithSep(s: string)
    ensures StartsWith(s, "/") <==> s != [] && s[0] == '/'
  {
    if s != [] {
      assert s[..1] == [s[0]];
    }
  }

  /** An absolute path never consists of one component without separators. */
  lemma NotAbsolute(s: string)
    requires NoSep(s)
    ensures !StartsWith(s, "/")
  {
    if |s| >= 1 {
      assert s[..1][0] == s[0];
    }
  }

  /** `LastEnd` is determined by its postcondition. */
  lemma LastEndIs(p: string, c: char, i: nat)
    requires i <= |p| && (i > 0 ==> p[i - 1] == c)
    requires forall k :: i <= k < |p| ==> p[k] != c
    ensures LastEnd(p, c) == i
  {
  }

  /** A last component without separators is split off at the last '/'. */
  lemma ComponentsSepLast(x: string, y: string)
    requires NoSep(y)
    ensures Components(x + "/" + y) == Components(x) + (if y == [] then [] else [y])
  {
    var q := x + "/" + y;
    assert q[|x|] == '/';
    assert forall k :: |x| + 1 <= k < |q| ==> q[k] == y[k - |x| - 1];
    LastEndIs(q, '/', |x| + 1);
    assert q[..|x|] == x;
    assert q[|x| + 1..] == y;
  }

  /** Splitting at a separator splits the component list. */
  lemma {:induction false} ComponentsSep(a: string, b: string)
    ensures Components(a + "/" + b) == Components(a) + Components(b)
    decreases |b|
  {
    var j := LastEnd(b, '/');
    LastEndAfter(b, '/');
    if j == 0 {
      ComponentsSepLast(a, b);
      ComponentsNoSep(b);
    } else {
      var b' := b[..j - 1];
      var t := b[j..];
      assert b == b' + "/" + t;
      assert a + "/" + b == (a + "/" + b') + "/" + t;
      ComponentsSepLast(a + "/" + b', t);
      ComponentsSepLast(b', t);
      ComponentsSep(a, b');
    }
  }

  /** Joining never makes an absolute path relative, nor a relative one absolute. */
  lemma JoinAbsolute(a: string, b: string)
    requires !StartsWith(b, "/")
    ensures StartsWith(Join(a, b), "/") <==> StartsWith(a, "/")
  {
    var j := Join(a, b);
    if a != [] {
      assert j[0] == a[0];
      assert j[..1] == [j[0]] && a[..1] == [a[0]];
    }
  }

  /** `join` of a relative path adds its components. */
  lemma ComponentsJoin(a: string, b: string)
    requires !StartsWith(b, "/")
    ensures Components(Join(a, b)) == Components(a) + Components(b)
  {
    if a == [] {
      assert Join(a, b) == b;
    } else if a[|a| - 1] == '/' {
      var a' := a[..|a| - 1];
      assert a == a' + "/" + [];
      assert Join(a, b) == a' + "/" + b;
      ComponentsSep(a', b);
      ComponentsSepLast(a', []);
    } else {
      ComponentsSep(a, b);
    }
  }

  lemma {:induction false} NormFromConcat(st: seq<string>, a: seq<string>, b: seq<string>)
    ensures NormFrom(st, a + b) == NormFrom(NormFrom(st, a), b)
    decreases |a|
  {
    if a != [] {
      assert (a + b)[0] == a[0] && (a + b)[1..] == a[1..] + b;
      var st' := if a[0] == [] || a[0] == "." then st
                 else if a[0] == ".." then (if st == [] then [] else st[..|st| - 1])
                 else st + [a[0]];
      NormFromConcat(st', a[1..], b);
    } else {
      assert a + b == b;
    }
  }

  lemma {:induction false} NormFromNormal(st: seq<string>, comps: seq<string>)
    requires NormalParts(st)
    requires forall k :: 0 <= k < |comps| ==> NoSep(comps[k])
    ensures NormalParts(NormFrom(st, comps))
    decreases |comps|
  {
    if comps != [] {
      if comps[0] == [] || comps[0] == "." {
        NormFromNormal(st, comps[1..]);
      } else if comps[0] == ".." {
        NormFromNormal(if st == [] then [] else st[..|st| - 1], comps[1..]);
      } else {
        NormFromNormal(st + [comps[0]], comps[1..]);
      }
    }
  }

  /** Normal components are kept as they are. */
  lemma {:induction false} NormFromKeeps(st: seq<string>, comps: seq<string>)
    requires NormalParts(comps)
    ensures NormFrom(st, comps) == st + comps
    decreases |comps|
  {
    if comps != [] {
      NormFromKeeps(st + [comps[0]], comps[1..]);
      assert st + [comps[0]] + comps[1..] == st + comps;
    }
  }

  /** Each ".." removes one component. */
  lemma {:induction false} NormFromUp(st: seq<string>, n: nat)
    requires n <= |st|
    ensures NormFrom(st, Repeat("..", n)) == st[..|st| - n]
    decreases n
  {
    if n > 0 {
      var r := Repeat("..", n);
      assert r == Repeat("..", n - 1) + [".."];
      NormFromConcat(st, Repeat("..", n - 1), [".."]);
      NormFromUp(st, n - 1);
      assert st[..|st| - (n - 1)][..|st| - n] == st[..|st| - n];
    } else {
      assert st[..|st|] == st;
    }
  }

  lemma {:induction false} ComponentsJoinAll(parts: seq<string>)
    requires parts != []
    requires forall k :: 0 <= k < |parts| ==> parts[k] != [] && NoSep(parts[k])
    ensures Components(JoinAll(parts)) == parts
    decreases |parts|
  {
    if |parts| == 1 {
      ComponentsNoSep(parts[0]);
    } else {
      var init := parts[..|parts| - 1];
      var last := parts[|parts| - 1];
      ComponentsJoinAll(init);
      NotAbsolute(last);
      ComponentsJoin(JoinAll(init), last);
      ComponentsNoSep(last);
      InitLast(parts);
    }
  }

  lemma InitLast(s: seq<string>)
    requires s != []
    ensures s == s[..|s| - 1] + [s[|s| - 1]]
  {
  }

  /** Joining a relative link target to the link's directory adds the
      target's components to those of the directory's absolute form. */
  lemma ComponentsJoinBelow(cwd: Path, start: Path, rel: Path)
    requires !StartsWith(rel, "/")
    ensures Components(Join(cwd, Join(start, rel))) == Components(Join(cwd, start)) + Components(rel)
  {
    JoinAbsolute(start, rel);
    if StartsWith(start, "/") {
      ComponentsJoinBelowAbsolute(cwd, start, rel);
    } else {
      ComponentsJoinBelowRelative(cwd, start, rel);
    }
  }

  lemma ComponentsJoinBelowAbsolute(cwd: Path, start: Path, rel: Path)
    requires !StartsWith(rel, "/") && StartsWith(start, "/") && StartsWith(Join(start, rel), "/")
    ensures Components(Join(cwd, Join(start, rel))) == Components(Join(cwd, start)) + Components(rel)
  {
    ComponentsJoin(start, rel);
  }

  lemma ComponentsJoinBelowRelative(cwd: Path, start: Path, rel: Path)
    requires !StartsWith(rel, "/") && !StartsWith(start, "/") && !StartsWith(Join(start, rel), "/")
    ensures Components(Join(cwd, Join(start, rel))) == Components(Join(cwd, start)) + Components(rel)
  {
    var j := Join(start, rel);
    ComponentsJoin(start, rel);
    ComponentsJoin(cwd, j);
    ComponentsJoin(cwd, start);
    Rebracket(Components(Join(cwd, j)), Components(j), Components(cwd), Components(start), Components(rel));
  }

  lemma Rebracket(x: seq<string>, y: seq<string>, c: seq<string>, s: seq<string>, r: seq<string>)
    requires x == c + y && y == s + r
    ensures x == (c + s) + r
  {
  }

  /** The parts `relpath` produces, read as a path again. */
  function RelParts(s: seq<string>, p: seq<string>): seq<string> {
    var i := CommonLen(s, p);
    var rel := Repeat("..", |s| - i) + p[i..];
    if rel == [] then ["."] else rel
  }

  /** Going up from `s` to the common ancestor and down again reaches `p`. */
  lemma RelPartsReach(s: seq<string>, p: seq<string>)
    requires NormalParts(s) && NormalParts(p)
    ensures NormFrom(s, RelParts(s, p)) == p
  {
    var i := CommonLen(s, p);
    var ups := Repeat("..", |s| - i);
    var rel := ups + p[i..];
    if rel == [] {
      SamePrefix(s, p, i);
    } else {
      NormFromConcat(s, ups, p[i..]);
      NormFromUp(s, |s| - i);
      NormFromKeeps(s[..i], p[i..]);
      PrefixThenRest(s, p, i);
    }
  }

  /** When the common prefix is everything, the two lists are equal. */
  lemma SamePrefix(s: seq<string>, p: seq<string>, i: nat)
    requires i == |s| == |p| && s[..i] == p[..i]
    ensures s == p
  {
    assert s == s[..i] && p == p[..i];
  }

  lemma PrefixThenRest(s: seq<string>, p: seq<string>, i: nat)
    requires i <= |s| && i <= |p| && s[..i] == p[..i]
    ensures s[..i] + p[i..] == p
  {
    assert p[..i] + p[i..] == p;
  }

  /** The string `relpath` returns splits back into its parts and is relative. */
  lemma RelTextParts(s: seq<string>, p: seq<string>)
    requires NormalParts(s) && NormalParts(p)
    ensures Components(RelText(s, p)) == RelParts(s, p)
    ensures !StartsWith(RelText(s, p), "/")
  {
    var i := CommonLen(s, p);
    var rel := Repeat("..", |s| - i) + p[i..];
    if rel == [] {
      ComponentsNoSep(".");
      NotAbsolute(".");
    } else {
      UpDownParts(Repeat("..", |s| - i), p[i..]);
      RelJoined(rel);
    }
  }

  /** The ".." steps and the normal parts below the common ancestor are all
      proper components. */
  lemma UpDownParts(ups: seq<string>, down: seq<string>)
    requires forall k :: 0 <= k < |ups| ==> ups[k] == ".."
    requires NormalParts(down)
    ensures forall k :: 0 <= k < |ups + down| ==> (ups + down)[k] != [] && NoSep((ups + down)[k])
  {
    forall k | 0 <= k < |ups + down|
      ensures (ups + down)[k] != [] && NoSep((ups + down)[k])
    {
      if k < |ups| {
        assert (ups + down)[k] == "..";
      } else {
        assert (ups + down)[k] == down[k - |ups|];
      }
    }
  }

  lemma RelJoined(rel: seq<string>)
    requires rel != []
    requires forall k :: 0 <= k < |rel| ==> rel[k] != [] && NoSep(rel[k])
    ensures Components(JoinAll(rel)) == rel && !StartsWith(JoinAll(rel), "/")
  {
    ComponentsJoinAll(rel);
    JoinAllFirst(rel);
    var r := JoinAll(rel);
    assert r[0] != '/';
    assert r[..1][0] == r[0];
  }

  /** The link binder's round trip: a link placed in directory `start` whose
      target is `relpath(path, start)` resolves (lexically, from the working
      directory `cwd`) to the absolute form of `path`. */
  lemma RelPathResolves(path: Path, start: Path, cwd: Path)
    requires path != []
    ensures RelPath(path, start, cwd).Some?
    ensures AbsParts(cwd, Join(start, RelPath(path, start, cwd).value)) == AbsParts(cwd, path)
  {
    var s := AbsParts(cwd, start);
    var p := AbsParts(cwd, path);
    NormFromNormal([], Components(Join(cwd, start)));
    NormFromNormal([], Components(Join(cwd, path)));
    RelTextParts(s, p);
    var r := RelPath(path, start, cwd).value;
    ComponentsJoinBelow(cwd, start, r);
    NormFromConcat([], Components(Join(cwd, start)), RelParts(s, p));
    RelPartsReach(s, p);
  }

  /** A normal last component adds itself to the normalised parts. */
  lemma AbsPartsChild(cwd: Path, a: Path, b: string)
    requires NormalPart(b)
    ensures AbsParts(cwd, Join(a, b)) == AbsParts(cwd, a) + [b]
  {
    NotAbsolute(b);
    ComponentsJoinBelow(cwd, a, b);
    ComponentsNoSep(b);
    NormFromConcat([], Components(Join(cwd, a)), [b]);
    NormFromKeeps(AbsParts(cwd, a), [b]);
  }

  /** Below a directory `d`, a relative path followed by a normal component
      adds that component to the parts the relative path reaches. */
  lemma AbsPartsBelowChild(cwd: Path, d: Path, rel: Path, b: string)
    requires !StartsWith(rel, "/") && NormalPart(b)
    ensures AbsParts(cwd, Join(d, Join(rel, b))) == AbsParts(cwd, Join(d, rel)) + [b]
  {
    NotAbsolute(b);
    JoinAbsolute(rel, b);
    ComponentsJoinBelow(cwd, d, Join(rel, b));
    ComponentsJoin(rel, b);
    ComponentsNoSep(b);
    ComponentsJoinBelow(cwd, d, rel);
    var below := Components(Join(cwd, Join(d, rel)));
    assert Components(Join(cwd, Join(d, Join(rel, b)))) == below + [b];
    NormFromConcat([], below, [b]);
    NormFromKeeps(NormFrom([], below), [b]);
  }

  /** The text of a link made in directory `d` to the entry `b` of `dataD`,
      `join(relpath(dataD, d), b)`, read from `d`, names that entry. */
  lemma RelLinkResolves(cwd: Path, d: Path, dataD: Path, b: string)
    requires dataD != [] && NormalPart(b)
    ensures RelPath(dataD, d, cwd).Some?
    ensures AbsParts(cwd, Join(d, Join(RelPath(dataD, d, cwd).value, b))) == AbsParts(cwd, Join(dataD, b))
  {
    RelPathResolves(dataD, d, cwd);
    RelPathRelative(dataD, d, cwd);
    AbsPartsBelowChild(cwd, d, RelPath(dataD, d, cwd).value, b);
    AbsPartsChild(cwd, dataD, b);
  }

  /** `relpath` returns a relative path. */
  lemma RelPathRelative(path: Path, start: Path, cwd: Path)
    requires path != []
    ensures RelPath(path, start, cwd).Some? && !StartsWith(RelPath(path, start, cwd).value, "/")
  {
    NormFromNormal([], Components(Join(cwd, start)));
    NormFromNormal([], Components(Join(cwd, path)));
    RelTextParts(AbsParts(cwd, start), AbsParts(cwd, path));
  }

  /** Joining a non-empty component never gives separators only. */
  lemma JoinNamed(d: Path, name: string)
    requires name != [] && NoSep(name)
    ensures !AllSeps(Join(d, name))
  {
    NotAbsolute(name);
    var j := Join(d, name);
    assert j[|j| - 1] == name[|name| - 1];
  }

  /** The directory part of the flat link `join(d, name)` is `d` again when
      `d` has no trailing separator (an empty `d` is the working directory). */
  lemma SplitLinkHead(d: Path, name: string)
    requires d == [] || d[|d| - 1] != '/'
    requires NoSep(name)
    ensures Split(Join(d, name)).0 == d
  {
    if d == [] {
      NotAbsolute(name);
    } else {
      SplitJoin(d, name);
    }
  }

  /** A join of relative parts starts with the first part. */
  lemma {:induction false} JoinAllFirst(parts: seq<string>)
    requires parts != []
    requires forall k :: 0 <= k < |parts| ==> parts[k] != [] && NoSep(parts[k])
    ensures JoinAll(parts) != [] && JoinAll(parts)[0] == parts[0][0]
    decreases |parts|
  {
    if |parts| > 1 {
      JoinAllFirst(parts[..|parts| - 1]);
      NotAbsolute(parts[|parts| - 1]);
    }
  }

  /** The stored name built inside a directory `d` written without a trailing
      separator is `d + "/" + name`. */
  lemma JoinPlain(d: Path, name: string)
    requires d != [] && d[|d| - 1] != '/'
    requires name == [] || name[0] != '/'
    ensures Join(d, name) == d + "/" + name
  {
  }

  /** `split(join(d, n))` gives back `d` and `n` when `n` is one component and
      `d` has no trailing separator. */
  lemma SplitJoin(d: Path, n: string)
    requires d != [] && d[|d| - 1] != '/'
    requires NoSep(n)
    ensures Split(Join(d, n)) == (d, n)
  {
    var q := d + "/" + n;
    NotAbsolute(n);
    assert Join(d, n) == q;
    assert q[|d|] == '/';
    assert forall k :: |d| + 1 <= k < |q| ==> q[k] == n[k - |d| - 1];
    LastEndIs(q, '/', |d| + 1);
    var head := q[..|d| + 1];
    assert head == d + "/";
    assert !AllSeps(head) by { assert head[|d| - 1] != '/'; }
    assert RStripSep(head) == RStripSep(d) by {
      assert head[..|head| - 1] == d;
    }
    assert q[|d| + 1..] == n;
  }
}
