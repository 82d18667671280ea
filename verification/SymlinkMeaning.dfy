/** What an accepted symlink target means: it is inside the root, its prefixes are no links, the
    bounds refuse exactly the long and the revisiting chains, and it is where a component-by-component
    walk of the file system ends. */
module SymlinkMeaning {
  import opened Wrappers
  import opened SymlinkResolver

  // ------------------------------------------------------------------ inside, and free of links

  predicate IsSolid(fs: FileSystem, path: Path) {
    fs.lstat(path).Found? && !fs.lstat(path).isLink
  }

  /** Every nonempty prefix exists and is no link. */
  ghost predicate SolidPath(fs: FileSystem, path: Path) {
    forall k :: 0 < k <= |path| ==> IsSolid(fs, path[..k])
  }

  lemma SolidStep(fs: FileSystem, path: Path, k: nat)
    requires k < |path| && SolidPath(fs, path[..k]) && IsSolid(fs, path[..k + 1])
    ensures SolidPath(fs, path[..k + 1])
  {
    var longer := path[..k + 1];
    forall j | 0 < j <= |longer| ensures IsSolid(fs, longer[..j]) {
      assert longer[..j] == if j <= k then path[..k][..j] else longer;
    }
  }

  lemma {:induction false} ScanMeaning(fs: FileSystem, path: Path, k: nat)
    requires k <= |path| && SolidPath(fs, path[..k])
    ensures var r := Scan(fs, path, k);
            && (r == Solid ==> SolidPath(fs, path))
            && (r == Gone ==> exists j :: k <= j < |path| && SolidPath(fs, path[..j]) && fs.lstat(path[..j + 1]) == NotExist)
            && (r.LinkAt? ==> SolidPath(fs, path[..r.index]) && fs.lstat(path[..r.index + 1]).Found? &&
                              fs.lstat(path[..r.index + 1]).isLink)
    decreases |path| - k
  {
    if k == |path| {
      assert path[..k] == path;
    } else if IsSolid(fs, path[..k + 1]) {
      SolidStep(fs, path, k);
      ScanMeaning(fs, path, k + 1);
    }
  }

  /** An answer about a path: the target exists and is reached through no link, or some prefix of it
      is absent and everything before that prefix is free of links. */
  ghost predicate IsPhysical(fs: FileSystem, result: Resolution) {
    match result
    case Target(path, info) => Inside(path) && SolidPath(fs, path) && info == fs.lstat(path) && info.Found?
    case Absent(path) =>
      Inside(path) && exists j :: 0 <= j < |path| && SolidPath(fs, path[..j]) && fs.lstat(path[..j + 1]) == NotExist
    case Refused => true
  }

  lemma AnswerIsPhysical(fs: FileSystem, raw: Path)
    requires LookAt(fs, raw).Answer?
    ensures IsPhysical(fs, LookAt(fs, raw).result)
  {
    var path := Clean(raw);
    CleanStaysInside(raw);
    ScanMeaning(fs, path, 0);
    if !Escapes(path) && path != [] && Scan(fs, path, 0) == Solid {
      assert path[..|path|] == path && IsSolid(fs, path[..|path|]);
    }
  }

  /** The resolver never answers with a path outside the root, and an existing target is reached
      through no link at all. */
  lemma {:induction false} ResolvedIsPhysical(fs: FileSystem, raw: Path, seen: set<Path>, depth: nat)
    ensures IsPhysical(fs, Resolve(fs, raw, seen, depth))
    decreases MAX_DEPTH + 1 - depth
  {
    if depth <= MAX_DEPTH {
      match LookAt(fs, raw)
      case Answer(_) => AnswerIsPhysical(fs, raw);
      case Follow(link, next) => if link !in seen { ResolvedIsPhysical(fs, next, seen + {link}, depth + 1); }
    }
  }

  lemma ValidatedSymlinkIsSafe(fs: FileSystem, path: Path)
    ensures var result := SymlinkTarget(fs, path);
            IsPhysical(fs, result) && (!result.Refused? && result.path != [] ==> result.path[0] != ".git")
  {
    ResolvedIsPhysical(fs, path, {}, 0);
  }

  // ------------------------------------------------------------------ the bounds

  /** Following links without remembering them: the answer, or refusal after so many hops. */
  function End(fs: FileSystem, raw: Path, hops: nat): Resolution
    decreases hops
  {
    match LookAt(fs, raw)
    case Answer(result) => result
    case Follow(_, next) => if hops == 0 then Refused else End(fs, next, hops - 1)
  }

  /** The links followed on the way. */
  function Links(fs: FileSystem, raw: Path, hops: nat): seq<Path>
    decreases hops
  {
    match LookAt(fs, raw)
    case Answer(_) => []
    case Follow(link, next) => if hops == 0 then [] else [link] + Links(fs, next, hops - 1)
  }

  predicate Distinct(links: seq<Path>) {
    forall i, j :: 0 <= i < j < |links| ==> links[i] != links[j]
  }

  predicate Avoids(links: seq<Path>, seen: set<Path>) {
    forall link :: link in links ==> link !in seen
  }

  lemma {:induction false} BoundsAreExactFrom(fs: FileSystem, raw: Path, seen: set<Path>, depth: nat)
    requires depth <= MAX_DEPTH
    ensures var links := Links(fs, raw, MAX_DEPTH - depth);
            Resolve(fs, raw, seen, depth) ==
            if Distinct(links) && Avoids(links, seen) then End(fs, raw, MAX_DEPTH - depth) else Refused
    decreases MAX_DEPTH - depth
  {
    match LookAt(fs, raw)
    case Answer(_) =>
    case Follow(link, next) =>
      if depth < MAX_DEPTH {
        BoundsAreExactFrom(fs, next, seen + {link}, depth + 1);
        var rest := Links(fs, next, MAX_DEPTH - depth - 1);
        var links := [link] + rest;
        assert Links(fs, raw, MAX_DEPTH - depth) == links;
        DistinctCons(link, rest, seen);
      }
  }

  lemma DistinctCons(link: Path, rest: seq<Path>, seen: set<Path>)
    ensures Distinct([link] + rest) && Avoids([link] + rest, seen) <==>
            link !in seen && Distinct(rest) && Avoids(rest, seen + {link})
  {
    DistinctFirst(link, rest);
    var links := [link] + rest;
    assert forall other :: other in links <==> other == link || other in rest;
    assert Avoids(links, seen) <==> link !in seen && Avoids(rest, seen);
    assert Avoids(rest, seen + {link}) <==> Avoids(rest, seen) && link !in rest;
  }

  lemma DistinctFirst(link: Path, rest: seq<Path>)
    ensures Distinct([link] + rest) <==> link !in rest && Distinct(rest)
  {
    var links := [link] + rest;
    if Distinct(links) {
      forall i | 0 <= i < |rest| ensures rest[i] != link { assert links[0] != links[i + 1]; }
      forall i, j | 0 <= i < j < |rest| ensures rest[i] != rest[j] { assert links[i + 1] != links[j + 1]; }
    }
  }

  /** The bounded resolver answers exactly when at most 64 hops over distinct links end in an answer,
      and then with that answer. */
  lemma BoundsAreExact(fs: FileSystem, raw: Path)
    ensures Resolve(fs, raw, {}, 0) == if Distinct(Links(fs, raw, 64)) then End(fs, raw, 64) else Refused
  {
    BoundsAreExactFrom(fs, raw, {}, 0);
  }

  /** The path after n hops, if there are that many. */
  function After(fs: FileSystem, raw: Path, n: nat): Option<Path>
    decreases n
  {
    if n == 0 then Some(raw)
    else
      match LookAt(fs, raw)
      case Answer(_) => None
      case Follow(_, next) => After(fs, next, n - 1)
  }

  lemma {:induction false} AfterSplits(fs: FileSystem, raw: Path, m: nat, n: nat)
    requires After(fs, raw, m).Some?
    ensures After(fs, raw, m + n) == After(fs, After(fs, raw, m).value, n)
    decreases m
  {
    if m > 0 { AfterSplits(fs, LookAt(fs, raw).next, m - 1, n); }
  }

  lemma {:induction false} EndMeaning(fs: FileSystem, raw: Path, hops: nat) returns (n: nat)
    requires End(fs, raw, hops) != Refused
    ensures n <= hops && After(fs, raw, n).Some? && LookAt(fs, After(fs, raw, n).value).Answer?
    decreases hops
  {
    if LookAt(fs, raw).Answer? { return 0; }
    n := EndMeaning(fs, LookAt(fs, raw).next, hops - 1);
    n := n + 1;
  }

  /** A path with a later one on its chain is not the end of it. */
  lemma LaterMeansFollow(fs: FileSystem, raw: Path, e: nat, n: nat)
    requires e < n && After(fs, raw, e).Some? && After(fs, raw, n).Some?
    ensures LookAt(fs, After(fs, raw, e).value).Follow?
  {
    AfterSplits(fs, raw, e, n - e);
  }

  /** A chain of more than 64 links is refused, and so is one that never answers. */
  lemma LongChainIsRefused(fs: FileSystem, raw: Path, n: nat)
    requires n > 64 && After(fs, raw, n).Some?
    ensures Resolve(fs, raw, {}, 0) == Refused
  {
    if End(fs, raw, MAX_DEPTH) != Refused {
      var e := EndMeaning(fs, raw, MAX_DEPTH);
      LaterMeansFollow(fs, raw, e, n);
    }
    BoundsAreExact(fs, raw);
  }

  lemma EndlessChainIsRefused(fs: FileSystem, raw: Path)
    requires forall n: nat :: After(fs, raw, n).Some?
    ensures Resolve(fs, raw, {}, 0) == Refused
  {
    LongChainIsRefused(fs, raw, MAX_DEPTH + 1);
  }

  /** A true loop, in which following links comes back to an earlier path, is always refused. */
  lemma LoopIsRefused(fs: FileSystem, raw: Path, m: nat, n: nat)
    requires m < n && After(fs, raw, m).Some? && After(fs, raw, n) == After(fs, raw, m)
    ensures Resolve(fs, raw, {}, 0) == Refused
  {
    if End(fs, raw, MAX_DEPTH) != Refused {
      var e := EndMeaning(fs, raw, MAX_DEPTH);
      LoopNeverAnswers(fs, raw, m, n, e);
    }
    BoundsAreExact(fs, raw);
  }

  lemma LoopNeverAnswers(fs: FileSystem, raw: Path, m: nat, n: nat, e: nat)
    requires m < n && After(fs, raw, m).Some? && After(fs, raw, n) == After(fs, raw, m) && After(fs, raw, e).Some?
    ensures LookAt(fs, After(fs, raw, e).value).Follow?
  {
    if e < n {
      LaterMeansFollow(fs, raw, e, n);
    } else {
      AfterSplits(fs, raw, n, e - n);
      AfterSplits(fs, raw, m, e - n);
      LaterMeansFollow(fs, raw, m + (e - n), e);
    }
  }

  // ------------------------------------------------------------------ one look and the whole check

  /** A link text that can be followed: not empty, not absolute, free of NUL. */
  predicate IsRelative(text: Path) {
    text != [] && text[0] != "" && forall part :: part in text ==> '\0' !in part
  }

  lemma RelativeIsUsable(text: Path)
    ensures UsableText(text) <==> IsRelative(text)
  {
    if UsableText(text) {
      forall part | part in text ensures '\0' !in part { var i :| 0 <= i < |text| && text[i] == part; }
    }
    if IsRelative(text) {
      forall i | 0 <= i < |text| ensures '\0' !in text[i] { assert text[i] in text; }
    }
  }

  lemma {:induction false} ScanSkips(fs: FileSystem, path: Path, j: nat, k: nat)
    requires j <= k <= |path| && SolidPath(fs, path[..k])
    ensures Scan(fs, path, j) == Scan(fs, path, k)
    decreases k - j
  {
    if j < k {
      assert path[..k][..j + 1] == path[..j + 1];
      assert IsSolid(fs, path[..k][..j + 1]);
      ScanSkips(fs, path, j + 1, k);
    }
  }

  /** What one look says of a path inside the root whose first k names are no links: it depends on the
      next name. */
  lemma LookIsExact(fs: FileSystem, raw: Path, k: nat)
    requires !Escapes(Clean(raw)) && k < |Clean(raw)| && SolidPath(fs, Clean(raw)[..k])
    ensures var path := Clean(raw);
            var name := path[..k + 1];
            match fs.lstat(name)
            case NotExist => LookAt(fs, raw) == Answer(Absent(path))
            case LstatFailed => LookAt(fs, raw) == Answer(Refused)
            case Found(isLink, _) =>
              if !isLink then k + 1 == |path| ==> LookAt(fs, raw) == Answer(Target(path, fs.lstat(path)))
              else if fs.readlink(name).Some? && IsRelative(fs.readlink(name).value)
              then LookAt(fs, raw) == Follow(name, path[..k] + fs.readlink(name).value + path[k + 1..])
              else LookAt(fs, raw) == Answer(Refused)
  {
    var path := Clean(raw);
    ScanSkips(fs, path, 0, k);
    if fs.readlink(path[..k + 1]).Some? { RelativeIsUsable(fs.readlink(path[..k + 1]).value); }
  }

  /** A path out of the root is refused at once, and the root itself is looked up. */
  lemma LookAtEdges(fs: FileSystem, raw: Path)
    ensures Escapes(Clean(raw)) ==> LookAt(fs, raw) == Answer(Refused)
    ensures Clean(raw) == [] ==> LookAt(fs, raw) == Answer(if fs.lstat([]).Found? then Target([], fs.lstat([])) else Refused)
  {
  }

  /** A symlink passes exactly when it is one, at most 64 distinct links lead from it to an answer, and
      that answer is not in the Git metadata. */
  lemma ValidatedIsExact(fs: FileSystem, path: Path, result: Resolution)
    requires result != Refused
    ensures SymlinkTarget(fs, path) == result <==>
              && fs.lstat(Clean(path)).Found? && fs.lstat(Clean(path)).isLink
              && Distinct(Links(fs, path, 64)) && End(fs, path, 64) == result
              && (result.path == [] || result.path[0] != ".git")
  {
    BoundsAreExact(fs, path);
  }
}
