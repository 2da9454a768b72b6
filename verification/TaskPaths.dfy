/** Resolving a declared path through the deepest ancestor that exists, and keeping it in the project.

    Models secureProjectPath, resolveThroughExistingAncestor, reversed and containedIn of
    internal/orch/task_paths.go on a POSIX host. The file system is an arbitrary function from clean
    absolute paths to what resolving their symbolic links yields. */
module TaskPaths {
  import opened Sequences
  import opened Wrappers

  const SEPARATOR := '/'

  /** A clean absolute path, as its components; the file-system root is the empty one. */
  type Path = seq<string>

  predicate IsComponent(c: string) {
    c != "" && SEPARATOR !in c && c != "." && c != ".."
  }

  predicate Clean(p: Path) {
    forall i :: 0 <= i < |p| ==> IsComponent(p[i])
  }

  function Slashed(p: Path): string {
    if p == [] then "" else Slashed(p[..|p| - 1]) + [SEPARATOR] + p[|p| - 1]
  }

  /** The path as text. */
  function Text(p: Path): string {
    if p == [] then [SEPARATOR] else Slashed(p)
  }

  // ---------------------------------------------------------------- containment

  /** containedIn, on the text the code compares. */
  predicate ContainedIn(root: string, path: string) {
    path == root || root + [SEPARATOR] <= path
  }

  /** What that test means for clean paths: root begins path, component by component. Under the
      file-system root only the root itself passes, since its text already ends in the separator. */
  predicate Contains(root: Path, path: Path) {
    if root == [] then path == [] else root <= path
  }

  lemma {:induction false} SlashedConcat(a: Path, b: Path)
    ensures Slashed(a + b) == Slashed(a) + Slashed(b)
  {
    if b == [] {
      PlusEmpty(a);
      PlusEmpty(Slashed(a));
    } else {
      var front, last := b[..|b| - 1], b[|b| - 1];
      assert (a + b)[..|a + b| - 1] == a + front;
      SlashedConcat(a, front);
      assert Slashed(a) + Slashed(front) + [SEPARATOR] + last == Slashed(a) + (Slashed(front) + [SEPARATOR] + last);
    }
  }

  /** The first component is what stands between the first separator and the next. */
  lemma SlashedSplit(p: Path)
    requires p != []
    ensures Slashed(p) == [SEPARATOR] + p[0] + Slashed(p[1..])
  {
    assert p == [p[0]] + p[1..];
    assert [p[0]][..0] == [];
    SlashedConcat([p[0]], p[1..]);
  }

  lemma StartsWithSeparator(p: Path)
    ensures Slashed(p) == "" <==> p == []
    ensures p != [] ==> Slashed(p)[0] == SEPARATOR
  {
    if p != [] { SlashedSplit(p); }
  }

  /** Two components ended by a separator agree when their texts do. */
  lemma SameComponent(c: string, d: string, x: string, y: string)
    requires SEPARATOR !in c && SEPARATOR !in d
    requires x != "" && x[0] == SEPARATOR && (y == "" || y[0] == SEPARATOR)
    ensures c + x <= d + y <==> c == d && x <= y
  {
    var s, t := c + x, d + y;
    if s <= t {
      assert s[|c|] == SEPARATOR == t[|c|];
      assert forall i :: 0 <= i < |c| ==> s[i] == c[i] != SEPARATOR;
      assert forall i :: 0 <= i < |d| ==> t[i] == d[i] != SEPARATOR;
      assert |t| > |d| ==> t[|d|] == y[0] == SEPARATOR;
      assert |c| == |d|;
      assert c == s[..|c|] && d == t[..|d|];
      assert x == s[|c|..] && y == t[|d|..];
    }
    if c == d && x <= y {
      assert y == x + y[|x|..];
      Assoc(c, x, y[|x|..]);
    }
  }

  /** One path's text and a separator begin another's exactly when the path properly begins it. */
  lemma {:induction false} PrefixIsBeneath(root: Path, path: Path)
    requires Clean(root) && Clean(path)
    ensures Slashed(root) + [SEPARATOR] <= Slashed(path) <==> root <= path && |root| < |path|
  {
    StartsWithSeparator(path);
    if root == [] {
      EmptyPlus([SEPARATOR]);
    } else if path != [] {
      SlashedSplit(root);
      SlashedSplit(path);
      var x, y := Slashed(root[1..]) + [SEPARATOR], Slashed(path[1..]);
      StartsWithSeparator(root[1..]);
      StartsWithSeparator(path[1..]);
      SameComponent(root[0], path[0], x, y);
      PrefixIsBeneath(root[1..], path[1..]);
      Regroup([SEPARATOR], root[0], Slashed(root[1..]), [SEPARATOR]);
      Assoc([SEPARATOR], path[0], y);
      ConsPrefix(SEPARATOR, root[0] + x, path[0] + y);
      HeadTailPrefix(root, path);
    }
  }

  lemma Regroup(a: string, b: string, c: string, d: string)
    ensures a + b + c + d == a + (b + (c + d))
  {}

  lemma ConsPrefix(c: char, a: string, b: string)
    ensures [c] + a <= [c] + b <==> a <= b
  {
    assert ([c] + a)[1..] == a && ([c] + b)[1..] == b;
    if [c] + a <= [c] + b { assert forall i :: 0 <= i < |a| ==> a[i] == ([c] + a)[i + 1] == ([c] + b)[i + 1]; }
  }

  lemma HeadTailPrefix(root: Path, path: Path)
    requires root != [] && path != []
    ensures root <= path <==> root[0] == path[0] && root[1..] <= path[1..]
  {
    if root[0] == path[0] && root[1..] <= path[1..] {
      forall i | 0 <= i < |root| ensures root[i] == path[i] {
        if i > 0 { assert root[i] == root[1..][i - 1] == path[1..][i - 1]; }
      }
    }
  }

  /** Text determines a clean path. */
  lemma SlashedInjective(a: Path, b: Path)
    requires Clean(a) && Clean(b) && Slashed(a) == Slashed(b)
    ensures a == b
  {
    var x := ["x"];
    SlashedConcat(a, x);
    SlashedConcat(b, x);
    assert Slashed(x) == [SEPARATOR] + "x" by { SlashedSplit(x); }
    Assoc(Slashed(a), [SEPARATOR], "x");
    Assoc(Slashed(b), [SEPARATOR], "x");
    PrefixIsBeneath(a, b + x);
    PrefixIsBeneath(b, a + x);
    ShorterPrefix(a, b, x);
    ShorterPrefix(b, a, x);
  }

  lemma ShorterPrefix(a: Path, b: Path, x: Path)
    requires a <= b + x && |a| <= |b|
    ensures a <= b
  {
    assert a == (b + x)[..|a|] == b[..|a|];
  }

  /** The text test on clean paths is the component test. */
  lemma ContainedInIsBeneath(root: Path, path: Path)
    requires Clean(root) && Clean(path)
    ensures ContainedIn(Text(root), Text(path)) <==> Contains(root, path)
  {
    if root == [] {
      if path != [] {
        SlashedSplit(path);
        assert Slashed(path)[1] == path[0][0];
      }
    } else {
      SlashedSplit(root);
      PrefixIsBeneath(root, path);
      if Slashed(root) == Slashed(path) { SlashedInjective(root, path); }
      if root <= path && |root| == |path| { assert root == path; }
      assert |Text(root)| >= 2;
    }
  }

  // ---------------------------------------------------------------- through the deepest ancestor

  /** What resolving a path's symbolic links yields. */
  datatype Lookup = Resolved(path: Path) | Missing | Faulty

  type FileSystem = Path -> Lookup

  datatype ResolveError = Fault | NoAncestor

  ghost predicate ResolvesClean(fs: FileSystem) {
    forall p :: fs(p).Resolved? ==> Clean(fs(p).path)
  }

  function Under(r: Result<Path, ResolveError>, rest: Path): Result<Path, ResolveError> {
    if r.Ok? then Ok(r.value + rest) else r
  }

  /** The deepest existing ancestor, resolved, with the rest of the path put back. */
  function Resolution(fs: FileSystem, path: Path): Result<Path, ResolveError> {
    match fs(path)
    case Resolved(p) => Ok(p)
    case Faulty => Err(Fault)
    case Missing => if path == [] then Err(NoAncestor) else Under(Resolution(fs, path[..|path| - 1]), path[|path| - 1..])
  }

  method Reversed(s: seq<string>) returns (r: seq<string>)
    ensures |r| == |s| && forall i :: 0 <= i < |s| ==> r[i] == s[|s| - 1 - i]
  {
    var out := new string[|s|];
    for i := 0 to |s|
      invariant forall k :: 0 <= k < i ==> out[|s| - 1 - k] == s[k]
    {
      out[|s| - 1 - i] := s[i];
    }
    r := out[..];
    forall i | 0 <= i < |s| ensures r[i] == s[|s| - 1 - i] {
      assert out[|s| - 1 - (|s| - 1 - i)] == s[|s| - 1 - i];
    }
  }

  /** Peels components off until something exists: it ends for every file system. */
  method ResolveThroughExistingAncestor(fs: FileSystem, path: Path) returns (r: Result<Path, ResolveError>)
    ensures r == Resolution(fs, path)
  {
    var remaining: seq<string> := [];
    var current := path;
    if Resolution(fs, path).Ok? { PlusEmpty(Resolution(fs, path).value); }
    while true
      invariant |current| + |remaining| == |path| && current == path[..|current|]
      invariant forall k :: 0 <= k < |remaining| ==> remaining[k] == path[|path| - 1 - k]
      invariant Resolution(fs, path) == Under(Resolution(fs, current), path[|current|..])
      decreases |current|
    {
      var looked := fs(current);
      if looked.Resolved? {
        if |remaining| == 0 {
          PlusEmpty(looked.path);
          return Ok(looked.path);
        }
        var rest := Reversed(remaining);
        assert rest == path[|current|..];
        return Ok(looked.path + rest);
      }
      if looked.Faulty? {
        return Err(Fault);
      }
      if current == [] {
        return Err(NoAncestor);
      }
      var n := |current| - 1;
      PeelOne(fs, path, n);
      remaining := remaining + [current[n]];
      current := current[..n];
    }
  }

  lemma PeelOne(fs: FileSystem, path: Path, n: nat)
    requires n < |path| && fs(path[..n + 1]).Missing?
    ensures Under(Resolution(fs, path[..n + 1]), path[n + 1..]) == Under(Resolution(fs, path[..n]), path[n..])
  {
    var current := path[..n + 1];
    assert current[..n] == path[..n] && current[n..] == [path[n]];
    assert path[n..] == [path[n]] + path[n + 1..];
    var below := Resolution(fs, path[..n]);
    if below.Ok? { Assoc(below.value, [path[n]], path[n + 1..]); }
  }

  /** Where a resolution comes from: every longer ancestor is missing, and the suffix keeps its order. */
  lemma {:induction false} ResolutionIsDeepest(fs: FileSystem, path: Path) returns (k: nat)
    ensures k <= |path| && (forall j :: k < j <= |path| ==> fs(path[..j]).Missing?)
    ensures match Resolution(fs, path)
            case Ok(p) => fs(path[..k]).Resolved? && p == fs(path[..k]).path + path[k..]
            case Err(Fault) => fs(path[..k]).Faulty?
            case Err(NoAncestor) => k == 0 && fs(path[..k]).Missing?
  {
    assert path[..|path|] == path;
    if fs(path).Missing? && path != [] {
      var front, n := path[..|path| - 1], |path| - 1;
      k := ResolutionIsDeepest(fs, front);
      assert forall j :: k <= j <= n ==> front[..j] == path[..j];
      assert front[k..] + path[n..] == path[k..];
      var below := Resolution(fs, front);
      if below.Ok? { Assoc(fs(path[..k]).path, front[k..], path[n..]); }
    } else {
      k := |path|;
      assert path[k..] == [];
      if fs(path).Resolved? { PlusEmpty(fs(path).path); }
    }
  }

  // ---------------------------------------------------------------- declared paths

  /** The pieces between separators, empty ones included. */
  function Split(s: string): (parts: seq<string>)
    ensures |parts| > 0 && forall i :: 0 <= i < |parts| ==> SEPARATOR !in parts[i]
  {
    if s == "" then [""]
    else
      var rest := Split(s[1..]);
      if s[0] == SEPARATOR then [""] + rest else [[s[0]] + rest[0]] + rest[1..]
  }

  predicate Skipped(part: string) {
    part == "" || part == "."
  }

  function Parent(p: Path): Path {
    if p == [] then [] else p[..|p| - 1]
  }

  /** Walking the pieces from a base, as joining and cleaning does; above the root there is only the root. */
  function Walk(base: Path, parts: seq<string>): Path {
    if parts == [] then base
    else
      var p, last := Walk(base, parts[..|parts| - 1]), parts[|parts| - 1];
      if Skipped(last) then p else if last == ".." then Parent(p) else p + [last]
  }

  /** Cleaning a relative path on its own first: what cannot be undone stays in front. */
  function CleanParts(parts: seq<string>): seq<string> {
    if parts == [] then []
    else
      var done, last := CleanParts(parts[..|parts| - 1]), parts[|parts| - 1];
      if Skipped(last) then done
      else if last == ".." && done != [] && done[|done| - 1] != ".." then done[..|done| - 1]
      else done + [last]
  }

  lemma {:induction false} CleanPartsAreReal(parts: seq<string>)
    ensures forall i :: 0 <= i < |CleanParts(parts)| ==> !Skipped(CleanParts(parts)[i])
  {
    if parts != [] { CleanPartsAreReal(parts[..|parts| - 1]); }
  }

  lemma WalkLast(base: Path, parts: seq<string>, last: string)
    ensures var p := Walk(base, parts);
            Walk(base, parts + [last]) == if Skipped(last) then p else if last == ".." then Parent(p) else p + [last]
  {
    assert (parts + [last])[..|parts|] == parts;
  }

  /** Cleaning before joining changes nothing. */
  lemma {:induction false} CleanThenWalk(base: Path, parts: seq<string>)
    ensures Walk(base, CleanParts(parts)) == Walk(base, parts)
  {
    if parts != [] {
      var front, last := parts[..|parts| - 1], parts[|parts| - 1];
      var done := CleanParts(front);
      CleanThenWalk(base, front);
      CleanPartsAreReal(front);
      WalkLast(base, done, last);
      if last == ".." && done != [] && done[|done| - 1] != ".." {
        var m := |done| - 1;
        assert done == done[..m] + [done[m]];
        WalkLast(base, done[..m], done[m]);
        assert Parent(Walk(base, done[..m]) + [done[m]]) == Walk(base, done[..m]);
      }
    }
  }

  lemma {:induction false} WalkIsClean(base: Path, parts: seq<string>)
    requires Clean(base) && forall i :: 0 <= i < |parts| ==> SEPARATOR !in parts[i]
    ensures Clean(Walk(base, parts))
  {
    if parts != [] { WalkIsClean(base, parts[..|parts| - 1]); }
  }

  predicate IsDriveLetter(c: char) {
    'a' <= c <= 'z' || 'A' <= c <= 'Z'
  }

  predicate IsRooted(declared: string) {
    declared != "" &&
    (declared[0] == '/' || declared[0] == '\\' || (|declared| >= 2 && declared[1] == ':' && IsDriveLetter(declared[0])))
  }

  datatype PathError = Escapes | Unresolvable

  function Candidate(root: Path, declared: string): Path {
    Walk(root, CleanParts(Split(declared)))
  }

  // ---------------------------------------------------------------- what a declared path names

  predicate ArePieces(parts: seq<string>) {
    parts != [] && forall i :: 0 <= i < |parts| ==> SEPARATOR !in parts[i]
  }

  /** The declared path whose pieces these are. */
  function Joined(parts: seq<string>): string
    requires parts != []
  {
    if |parts| == 1 then parts[0] else parts[0] + ([SEPARATOR] + Joined(parts[1..]))
  }

  lemma SplitCons(c: char, rest: string)
    ensures Split([c] + rest) ==
            if c == SEPARATOR then [""] + Split(rest) else [[c] + Split(rest)[0]] + Split(rest)[1..]
  {
    assert ([c] + rest)[1..] == rest;
  }

  lemma {:induction false} SplitPiece(piece: string, rest: string)
    requires SEPARATOR !in piece && rest != "" && rest[0] == SEPARATOR
    ensures Split(piece + rest) == [piece] + Split(rest[1..])
    decreases |piece|
  {
    if piece == "" {
      EmptyPlus(rest);
    } else {
      SplitPiece(piece[1..], rest);
      assert piece + rest == [piece[0]] + (piece[1..] + rest);
      assert piece == [piece[0]] + piece[1..];
      SplitCons(piece[0], piece[1..] + rest);
    }
  }

  lemma {:induction false} SplitLastPiece(piece: string)
    requires SEPARATOR !in piece
    ensures Split(piece) == [piece]
  {
    if piece != "" {
      SplitLastPiece(piece[1..]);
      assert piece == [piece[0]] + piece[1..];
      SplitCons(piece[0], piece[1..]);
    }
  }

  /** A declared path has the pieces it was joined from, so it names where walking them leads. */
  lemma {:induction false} SplitInvertsJoined(parts: seq<string>)
    requires ArePieces(parts)
    ensures Split(Joined(parts)) == parts
  {
    if |parts| == 1 {
      SplitLastPiece(parts[0]);
    } else {
      SplitInvertsJoined(parts[1..]);
      var rest := [SEPARATOR] + Joined(parts[1..]);
      SplitPiece(parts[0], rest);
      assert rest[1..] == Joined(parts[1..]) && parts == [parts[0]] + parts[1..];
    }
  }

  /** Every declared path is one joined from its pieces. */
  lemma {:induction false} JoinedInvertsSplit(s: string)
    ensures ArePieces(Split(s)) && Joined(Split(s)) == s
  {
    if s != "" {
      JoinedInvertsSplit(s[1..]);
      var rest := Split(s[1..]);
      assert s == [s[0]] + s[1..];
      if s[0] == SEPARATOR {
        assert ([""] + rest)[1..] == rest;
      } else {
        assert Split(s)[1..] == rest[1..] && Split(s)[0] == [s[0]] + rest[0];
      }
    }
  }

  lemma {:induction false} WalkConcat(base: Path, a: seq<string>, b: seq<string>)
    ensures Walk(base, a + b) == Walk(Walk(base, a), b)
  {
    if b == [] {
      PlusEmpty(a);
    } else {
      var front, last := b[..|b| - 1], b[|b| - 1];
      assert a + b == (a + front) + [last] && b == front + [last];
      WalkConcat(base, a, front);
      WalkLast(base, a + front, last);
      WalkLast(Walk(base, a), front, last);
    }
  }

  lemma {:induction false} WalkDown(base: Path, rel: Path)
    requires Clean(rel)
    ensures Walk(base, rel) == base + rel
  {
    if rel == [] {
      PlusEmpty(base);
    } else {
      var front, last := rel[..|rel| - 1], rel[|rel| - 1];
      WalkDown(base, front);
      assert base + front + [last] == base + rel;
    }
  }

  function Ups(n: nat): seq<string> {
    if n == 0 then [] else Ups(n - 1) + [".."]
  }

  lemma {:induction false} WalkUp(base: Path, n: nat)
    ensures Walk(base, Ups(n)) == base[..if n < |base| then |base| - n else 0]
  {
    if n > 0 {
      WalkUp(base, n - 1);
      WalkLast(base, Ups(n - 1), "..");
    }
  }

  /** Where pieces lead from the project root. */
  function Named(root: Path, parts: seq<string>): Path
    requires parts != []
  {
    Candidate(root, Joined(parts))
  }

  lemma NamedWalks(root: Path, parts: seq<string>)
    requires ArePieces(parts)
    ensures Named(root, parts) == Walk(root, parts)
  {
    SplitInvertsJoined(parts);
    CleanThenWalk(root, parts);
  }

  /** A declared path that climbs n levels and then names components names them under the n-th ancestor of
      the root, or under the file-system root if it climbs past it. */
  lemma NamesBeneath(root: Path, n: nat, rel: Path)
    requires Clean(rel) && Ups(n) + rel != [] && ArePieces(Ups(n) + rel)
    ensures Named(root, Ups(n) + rel) == root[..if n < |root| then |root| - n else 0] + rel
  {
    NamedWalks(root, Ups(n) + rel);
    WalkConcat(root, Ups(n), rel);
    WalkUp(root, n);
    WalkDown(Walk(root, Ups(n)), rel);
  }

  /** An empty piece or a dot changes nothing, and a component with ".." behind it cancels, wherever they
      stand. */
  lemma NamesSimplify(root: Path, before: seq<string>, c: string, after: seq<string>)
    requires ArePieces(before + after) && SEPARATOR !in c
    ensures c == "" || c == "." ==> Named(root, before + [c] + after) == Named(root, before + after)
    ensures IsComponent(c) ==> Named(root, before + [c, ".."] + after) == Named(root, before + after)
  {
    var here := Walk(root, before);
    NamedWalks(root, before + after);
    WalkConcat(root, before, after);
    if c == "" || c == "." {
      WalkLast(root, before, c);
      WalkConcat(root, before + [c], after);
      StillPieces(before, [c], after);
      NamedWalks(root, before + [c] + after);
    } else if IsComponent(c) {
      assert before + [c, ".."] == before + [c] + [".."];
      WalkLast(root, before, c);
      WalkLast(root, before + [c], "..");
      assert Parent(here + [c]) == here;
      WalkConcat(root, before + [c, ".."], after);
      StillPieces(before, [c, ".."], after);
      NamedWalks(root, before + [c, ".."] + after);
    }
  }

  lemma StillPieces(before: seq<string>, some: seq<string>, after: seq<string>)
    requires ArePieces(before + after) && forall i :: 0 <= i < |some| ==> SEPARATOR !in some[i]
    ensures ArePieces(before + some + after)
  {
    var all := before + some + after;
    forall i | 0 <= i < |all| ensures SEPARATOR !in all[i] {
      if i < |before| {
        assert all[i] == (before + after)[i];
      } else if i >= |before| + |some| {
        assert all[i] == (before + after)[i - |some|];
      }
    }
  }

  /** A declared path is refused for being rooted exactly when it starts with a separator of either kind or
      with a drive, its letter any of the ASCII ones. */
  lemma RootedWhen(declared: string)
    ensures IsRooted(declared) <==>
              || "/" <= declared || "\\" <= declared
              || (|declared| >= 2 && declared[1] == ':' &&
                  (0x41 <= declared[0] as int <= 0x5A || 0x61 <= declared[0] as int <= 0x7A))
  {}

  lemma CandidateIsClean(root: Path, declared: string)
    requires Clean(root)
    ensures Clean(Candidate(root, declared))
  {
    CleanThenWalk(root, Split(declared));
    WalkIsClean(root, Split(declared));
  }

  lemma ResolutionIsClean(fs: FileSystem, path: Path)
    requires ResolvesClean(fs) && Clean(path) && Resolution(fs, path).Ok?
    ensures Clean(Resolution(fs, path).value)
  {
    var k := ResolutionIsDeepest(fs, path);
  }

  /** Returns only what lies in the resolved project root, component by component, and tells an escape
      from a fault. */
  method SecureProjectPath(fs: FileSystem, root: Path, declared: string) returns (r: Result<Path, PathError>)
    requires ResolvesClean(fs)
    ensures r.Ok? <==>
              && declared != "" && !IsRooted(declared) && fs(root).Resolved?
              && Resolution(fs, Candidate(fs(root).path, declared)).Ok?
              && Contains(fs(root).path, Resolution(fs, Candidate(fs(root).path, declared)).value)
    ensures r.Ok? ==> Resolution(fs, Candidate(fs(root).path, declared)) == Ok(r.value)
    ensures r == Err(Escapes) <==>
              || declared == "" || IsRooted(declared)
              || (fs(root).Resolved? && Resolution(fs, Candidate(fs(root).path, declared)).Ok? &&
                  !Contains(fs(root).path, Resolution(fs, Candidate(fs(root).path, declared)).value))
  {
    if declared == "" || IsRooted(declared) {
      return Err(Escapes);
    }
    var resolvedRoot := fs(root);
    if !resolvedRoot.Resolved? {
      return Err(Unresolvable);
    }
    var candidate := Candidate(resolvedRoot.path, declared);
    var resolved := ResolveThroughExistingAncestor(fs, candidate);
    if resolved.Err? {
      return Err(Unresolvable);
    }
    CandidateIsClean(resolvedRoot.path, declared);
    ResolutionIsClean(fs, candidate);
    ContainedInIsBeneath(resolvedRoot.path, resolved.value);
    if !ContainedIn(Text(resolvedRoot.path), Text(resolved.value)) {
      return Err(Escapes);
    }
    return Ok(resolved.value);
  }
}
