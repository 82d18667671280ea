/** Resolving a symlink of the source tree inside the source root, over an abstract file system. */
module SymlinkResolver {
  import opened Wrappers

  /** Components of a slash-separated path relative to the source root. A link text is split the same
      way, so "" is [""] and an absolute path starts with an empty component. */
  type Path = seq<string>

  datatype Stat = NotExist | LstatFailed | Found(isLink: bool, isDir: bool)

  datatype FileSystem = FileSystem(lstat: Path -> Stat, readlink: Path -> Option<Path>)

  datatype Resolution = Target(path: Path, info: Stat) | Absent(path: Path) | Refused

  const MAX_DEPTH: nat := 64

  // ------------------------------------------------------------------ lexical cleaning

  predicate IsDot(part: string) {
    part == "" || part == "."
  }

  /** Lexical normal form of a relative path: no empty or "." component, each ".." cancelling the
      component before it. */
  function CleanOnto(done: Path, parts: Path): Path
    decreases parts
  {
    if parts == [] then done
    else if IsDot(parts[0]) then CleanOnto(done, parts[1..])
    else if parts[0] == ".." && done != [] && done[|done| - 1] != ".." then CleanOnto(done[..|done| - 1], parts[1..])
    else CleanOnto(done + [parts[0]], parts[1..])
  }

  function Clean(parts: Path): Path {
    CleanOnto([], parts)
  }

  predicate Escapes(path: Path) {
    path != [] && path[0] == ".."
  }

  predicate IsName(part: string) {
    !IsDot(part) && part != ".."
  }

  /** A path of plain names: it denotes something below the root. */
  predicate Inside(path: Path) {
    forall part :: part in path ==> IsName(part)
  }

  predicate Cleaned(path: Path) {
    forall i :: 0 <= i < |path| ==> !IsDot(path[i]) && (path[i] == ".." && i > 0 ==> path[i - 1] == "..")
  }

  lemma {:induction false} CleanOntoIsCleaned(done: Path, parts: Path)
    requires Cleaned(done)
    ensures Cleaned(CleanOnto(done, parts))
    decreases parts
  {
    if parts != [] {
      if IsDot(parts[0]) {
        CleanOntoIsCleaned(done, parts[1..]);
      } else if parts[0] == ".." && done != [] && done[|done| - 1] != ".." {
        CleanOntoIsCleaned(done[..|done| - 1], parts[1..]);
      } else {
        CleanOntoIsCleaned(done + [parts[0]], parts[1..]);
      }
    }
  }

  lemma {:induction false} NamesAfterName(path: Path, k: nat)
    requires Cleaned(path) && k < |path| && !Escapes(path)
    ensures IsName(path[k])
  {
    if k > 0 { NamesAfterName(path, k - 1); }
  }

  /** A cleaned path that does not start with ".." is inside the root. */
  lemma CleanStaysInside(raw: Path)
    ensures Escapes(Clean(raw)) || Inside(Clean(raw))
  {
    CleanOntoIsCleaned([], raw);
    if !Escapes(Clean(raw)) {
      forall part | part in Clean(raw) ensures IsName(part) {
        var k :| 0 <= k < |Clean(raw)| && Clean(raw)[k] == part;
        NamesAfterName(Clean(raw), k);
      }
    }
  }

  lemma {:induction false} CleanOntoSplits(done: Path, a: Path, b: Path)
    ensures CleanOnto(done, a + b) == CleanOnto(CleanOnto(done, a), b)
    decreases a
  {
    if a == [] {
      assert a + b == b;
    } else {
      assert (a + b)[1..] == a[1..] + b;
      if IsDot(a[0]) {
        CleanOntoSplits(done, a[1..], b);
      } else if a[0] == ".." && done != [] && done[|done| - 1] != ".." {
        CleanOntoSplits(done[..|done| - 1], a[1..], b);
      } else {
        CleanOntoSplits(done + [a[0]], a[1..], b);
      }
    }
  }

  lemma {:induction false} CleanOntoNames(done: Path, names: Path)
    requires Inside(names)
    ensures CleanOnto(done, names) == done + names
    decreases names
  {
    if names == [] {
      assert done + names == done;
    } else {
      assert IsName(names[0]);
      CleanOntoNames(done + [names[0]], names[1..]);
      assert done + [names[0]] + names[1..] == done + names;
    }
  }

  // ------------------------------------------------------------------ one scan of a path

  datatype Scanned = Solid | Gone | Broken | LinkAt(index: nat)

  /** Look at ever longer prefixes of a path, up to the first that is absent or a link. */
  function Scan(fs: FileSystem, path: Path, k: nat): (r: Scanned)
    requires k <= |path|
    ensures r.LinkAt? ==> k <= r.index < |path|
    decreases |path| - k
  {
    if k == |path| then Solid
    else
      match fs.lstat(path[..k + 1])
      case NotExist => Gone
      case LstatFailed => Broken
      case Found(isLink, _) => if isLink then LinkAt(k) else Scan(fs, path, k + 1)
  }

  predicate UsableText(text: Path) {
    && text != [] && text != [""] && !(|text| >= 2 && text[0] == "")
    && forall i :: 0 <= i < |text| ==> '\0' !in text[i]
  }

  /** The path to resolve once the link at index k of a path is replaced by its text. */
  function Rewritten(fs: FileSystem, path: Path, k: nat): Option<Path>
    requires k < |path|
  {
    match fs.readlink(path[..k + 1])
    case None => None
    case Some(text) => if UsableText(text) then Some(path[..k] + text + path[k + 1..]) else None
  }

  /** What one look at a path says: an answer, or the link followed and the path it leads to. */
  datatype Look = Answer(result: Resolution) | Follow(link: Path, next: Path)

  function LookAt(fs: FileSystem, raw: Path): Look {
    var path := Clean(raw);
    if Escapes(path) then Answer(Refused)
    else if path == [] then Answer(if fs.lstat([]).Found? then Target([], fs.lstat([])) else Refused)
    else
      match Scan(fs, path, 0)
      case Solid => Answer(Target(path, fs.lstat(path)))
      case Gone => Answer(Absent(path))
      case Broken => Answer(Refused)
      case LinkAt(k) =>
        match Rewritten(fs, path, k)
        case None => Answer(Refused)
        case Some(next) => Follow(path[..k + 1], next)
  }

  /** What the bounded resolver answers from a given depth and set of links already followed. */
  function Resolve(fs: FileSystem, raw: Path, seen: set<Path>, depth: nat): Resolution
    decreases MAX_DEPTH + 1 - depth
  {
    if depth > MAX_DEPTH then Refused
    else
      match LookAt(fs, raw)
      case Answer(result) => result
      case Follow(link, next) => if link in seen then Refused else Resolve(fs, next, seen + {link}, depth + 1)
  }

  class Resolver {
    const fs: FileSystem
    var seen: set<Path>

    constructor (fs: FileSystem)
      ensures this.fs == fs && seen == {}
    {
      this.fs, seen := fs, {};
    }

    /** resolveSourcePathWithinRoot; every call of one resolution marks the same set of links. */
    method ResolveWithinRoot(raw: Path, depth: nat) returns (result: Resolution)
      modifies this
      ensures result == Resolve(fs, raw, old(seen), depth)
      decreases MAX_DEPTH + 1 - depth
    {
      if depth > MAX_DEPTH { return Refused; }
      var path := Clean(raw);
      if Escapes(path) { return Refused; }
      if path == [] {
        return if fs.lstat([]).Found? then Target([], fs.lstat([])) else Refused;
      }
      CleanStaysInside(raw);
      var resolved: Path, info := [], NotExist;
      for k := 0 to |path|
        invariant resolved == path[..k] && Scan(fs, path, 0) == Scan(fs, path, k) && seen == old(seen)
        invariant k > 0 ==> info == fs.lstat(path[..k])
      {
        assert path[k] in path;
        if IsDot(path[k]) { assert false; }
        resolved := resolved + [path[k]];
        assert resolved == path[..k + 1];
        match fs.lstat(resolved) {
          case NotExist => return Absent(path);
          case LstatFailed => return Refused;
          case Found(isLink, _) =>
            info := fs.lstat(resolved);
            if isLink {
              if resolved in seen { return Refused; }
              seen := seen + {resolved};
              var text := fs.readlink(resolved);
              if text.None? || !UsableText(text.value) { return Refused; }
              result := ResolveWithinRoot(path[..k] + text.value + path[k + 1..], depth + 1);
              return;
            }
        }
      }
      assert path[..|path|] == path;
      result := Target(path, info);
    }

    /** validateSourceSymlink: the path must be a link, and its target outside the Git metadata. */
    method ValidateSymlink(path: Path) returns (result: Resolution)
      requires seen == {}
      modifies this
      ensures result == SymlinkTarget(fs, path)
    {
      var stat := fs.lstat(Clean(path));
      if !stat.Found? || !stat.isLink { return Refused; }
      result := ResolveWithinRoot(path, 0);
      if !result.Refused? && result.path != [] && result.path[0] == ".git" { return Refused; }
    }
  }

  function SymlinkTarget(fs: FileSystem, path: Path): Resolution {
    var stat := fs.lstat(Clean(path));
    if !stat.Found? || !stat.isLink then Refused
    else
      var result := Resolve(fs, path, {}, 0);
      if !result.Refused? && result.path != [] && result.path[0] == ".git" then Refused else result
  }
}
