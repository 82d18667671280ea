/** Lexical rewriting against a component-by-component walk of the file system, in which ".." leaves
    the directory actually reached. */
module SymlinkWalk {
  import opened Wrappers
  import opened SymlinkResolver
  import opened SymlinkMeaning

  /** The components that matter. */
  function Names(parts: Path): Path {
    if parts == [] then []
    else if IsDot(parts[0]) then Names(parts[1..])
    else [parts[0]] + Names(parts[1..])
  }

  /** Walk the remaining components from a directory reached through no link, following at most so
      many links and not leaving the root. */
  function Walk(fs: FileSystem, cur: Path, todo: Path, hops: nat): Resolution
    decreases hops, |todo|
  {
    if todo == [] then
      if cur == [] && !fs.lstat([]).Found? then Refused else Target(cur, fs.lstat(cur))
    else if IsDot(todo[0]) then Walk(fs, cur, todo[1..], hops)
    else if todo[0] == ".." then
      if cur == [] then Refused else Walk(fs, cur[..|cur| - 1], todo[1..], hops)
    else
      var path := cur + [todo[0]];
      match fs.lstat(path)
      case NotExist => Absent(path + Names(todo[1..]))
      case LstatFailed => Refused
      case Found(isLink, _) =>
        if !isLink then Walk(fs, path, todo[1..], hops)
        else if hops == 0 then Refused
        else
          match fs.readlink(path)
          case None => Refused
          case Some(text) => if UsableText(text) then Walk(fs, cur, text + todo[1..], hops - 1) else Refused
  }

  /** Link texts that climb, if at all, before they name anything: "../../a/b", never "a/../b". */
  predicate UpsFirst(text: Path) {
    forall i, j :: 0 <= i < j < |text| && text[j] == ".." ==> !IsName(text[i])
  }

  ghost predicate TextsAreUpsFirst(fs: FileSystem) {
    forall link :: fs.readlink(link).Some? ==> UpsFirst(fs.readlink(link).value)
  }

  lemma {:induction false} NamesOfInside(path: Path)
    requires Inside(path)
    ensures Names(path) == path
  {
    if path != [] {
      assert path[0] in path;
      NamesOfInside(path[1..]);
    }
  }

  /** A walk through directories that are no links just moves down. */
  lemma {:induction false} WalkDown(fs: FileSystem, cur: Path, k: nat, todo: Path, hops: nat)
    requires Inside(cur) && SolidPath(fs, cur) && k <= |cur|
    ensures Walk(fs, cur[..k], cur[k..] + todo, hops) == Walk(fs, cur, todo, hops)
    decreases |cur| - k
  {
    if k == |cur| {
      assert cur[..k] == cur && cur[k..] + todo == todo;
    } else {
      var rest := cur[k..] + todo;
      assert rest[0] == cur[k] && cur[k] in cur && rest[1..] == cur[k + 1..] + todo;
      assert cur[..k] + [cur[k]] == cur[..k + 1] && IsSolid(fs, cur[..k + 1]);
      WalkDown(fs, cur, k + 1, todo, hops);
    }
  }

  function AfterScan(fs: FileSystem, path: Path, scanned: Scanned, hops: nat): Resolution
    requires scanned.LinkAt? ==> scanned.index < |path|
  {
    match scanned
    case Solid => Target(path, fs.lstat(path))
    case Gone => Absent(path)
    case Broken => Refused
    case LinkAt(j) =>
      if hops == 0 || fs.readlink(path[..j + 1]).None? || !UsableText(fs.readlink(path[..j + 1]).value) then Refused
      else Walk(fs, path[..j], fs.readlink(path[..j + 1]).value + path[j + 1..], hops - 1)
  }

  /** The walk of a clean path does what the scan of its prefixes finds. */
  lemma {:induction false} WalkFollowsScan(fs: FileSystem, path: Path, k: nat, hops: nat)
    requires Inside(path) && path != [] && k <= |path|
    ensures Walk(fs, path[..k], path[k..], hops) == AfterScan(fs, path, Scan(fs, path, k), hops)
    decreases |path| - k
  {
    if k == |path| {
      assert path[..k] == path;
    } else {
      var todo := path[k..];
      assert todo[0] == path[k] && path[k] in path && todo[1..] == path[k + 1..] && path[..k] + [path[k]] == path[..k + 1];
      if fs.lstat(path[..k + 1]) == NotExist {
        assert Inside(todo[1..]);
        NamesOfInside(todo[1..]);
        assert path[..k + 1] + todo[1..] == path;
      } else if IsSolid(fs, path[..k + 1]) {
        WalkFollowsScan(fs, path, k + 1, hops);
      }
    }
  }

  lemma {:induction false} CleanAfterEscape(done: Path, parts: Path)
    requires Escapes(done)
    ensures Escapes(CleanOnto(done, parts))
    decreases parts
  {
    if parts != [] {
      if IsDot(parts[0]) {
        CleanAfterEscape(done, parts[1..]);
      } else if parts[0] == ".." && done[|done| - 1] != ".." {
        CleanAfterEscape(done[..|done| - 1], parts[1..]);
      } else {
        CleanAfterEscape(done + [parts[0]], parts[1..]);
      }
    }
  }

  /** Text without ".." only adds names. */
  lemma {:induction false} DownOnly(cur: Path, text: Path)
    requires ".." !in text
    ensures Inside(Names(text)) && CleanOnto(cur, text) == cur + Names(text)
    decreases text
  {
    if text == [] {
      assert cur + Names(text) == cur;
    } else {
      assert text[0] in text;
      if IsDot(text[0]) {
        DownOnly(cur, text[1..]);
      } else {
        DownOnly(cur + [text[0]], text[1..]);
        assert cur + [text[0]] + Names(text[1..]) == cur + Names(text);
      }
    }
  }

  lemma {:induction false} NamesSplit(a: Path, b: Path)
    ensures Names(a + b) == Names(a) + Names(b)
  {
    if a == [] {
      assert a + b == b;
    } else {
      assert (a + b)[1..] == a[1..] + b;
      NamesSplit(a[1..], b);
    }
  }

  /** A walk only depends on the components that matter. */
  lemma {:induction false} WalkOfNames(fs: FileSystem, cur: Path, a: Path, b: Path, hops: nat)
    requires Names(a) == Names(b)
    ensures Walk(fs, cur, a, hops) == Walk(fs, cur, b, hops)
    decreases hops, |a| + |b|
  {
    if a != [] && IsDot(a[0]) {
      WalkOfNames(fs, cur, a[1..], b, hops);
    } else if b != [] && IsDot(b[0]) {
      WalkOfNames(fs, cur, a, b[1..], hops);
    } else if a != [] && b != [] {
      assert a[0] == Names(a)[0] && Names(a[1..]) == Names(a)[1..] && Names(b[1..]) == Names(b)[1..];
      if a[0] == ".." {
        if cur != [] { WalkOfNames(fs, cur[..|cur| - 1], a[1..], b[1..], hops); }
      } else {
        var path := cur + [a[0]];
        if IsSolid(fs, path) {
          WalkOfNames(fs, path, a[1..], b[1..], hops);
        } else if hops > 0 && fs.readlink(path).Some? {
          var text := fs.readlink(path).value;
          NamesSplit(text, a[1..]);
          NamesSplit(text, b[1..]);
          WalkOfNames(fs, cur, text + a[1..], text + b[1..], hops - 1);
        }
      }
    }
  }

  /** Replacing a link by a text that climbs first: cleaning the new path lexically and walking the
      text from the link's directory come to the same. */
  lemma {:induction false} RewritingAgrees(fs: FileSystem, cur: Path, text: Path, rest: Path, hops: nat)
    requires Inside(cur) && SolidPath(fs, cur) && UpsFirst(text) && Inside(rest)
    ensures var path := CleanOnto(cur, text + rest);
            Walk(fs, cur, text + rest, hops) == if Escapes(path) then Refused else Walk(fs, [], path, hops)
    decreases text
  {
    if text == [] {
      assert text + rest == rest;
      CleanOntoNames(cur, rest);
      WalkDown(fs, cur, 0, rest, hops);
      assert cur[..0] == [] && cur[0..] + rest == cur + rest;
      if cur + rest != [] { assert (cur + rest)[0] in cur + rest; }
    } else {
      assert (text + rest)[1..] == text[1..] + rest && (text + rest)[0] == text[0];
      if IsDot(text[0]) {
        RewritingAgrees(fs, cur, text[1..], rest, hops);
      } else if text[0] == ".." {
        if cur == [] {
          assert [] + [".."] == [".."];
          CleanAfterEscape([".."], text[1..] + rest);
        } else {
          assert cur[|cur| - 1] in cur;
          ParentIsSolid(fs, cur);
          RewritingAgrees(fs, cur[..|cur| - 1], text[1..], rest, hops);
        }
      } else {
        NamedTextAgrees(fs, cur, text, rest, hops);
      }
    }
  }

  lemma ParentIsSolid(fs: FileSystem, cur: Path)
    requires SolidPath(fs, cur) && cur != []
    ensures SolidPath(fs, cur[..|cur| - 1])
  {
    var parent := cur[..|cur| - 1];
    forall k | 0 < k <= |parent| ensures IsSolid(fs, parent[..k]) {
      assert parent[..k] == cur[..k];
    }
  }

  lemma NamedTextHasNoUps(text: Path)
    requires text != [] && IsName(text[0]) && UpsFirst(text)
    ensures ".." !in text
  {
    var first := text[0];
    assert forall j :: 0 < j < |text| && text[j] == ".." ==> !IsName(first);
  }

  lemma NamedTextAgrees(fs: FileSystem, cur: Path, text: Path, rest: Path, hops: nat)
    requires Inside(cur) && SolidPath(fs, cur) && Inside(rest)
    requires text != [] && IsName(text[0]) && UpsFirst(text)
    ensures var path := CleanOnto(cur, text + rest);
            !Escapes(path) && Walk(fs, cur, text + rest, hops) == Walk(fs, [], path, hops)
  {
    var names := Names(text);
    NamedTextHasNoUps(text);
    NamedTextCleans(fs, cur, text, rest);
    NamesSplit(text, rest);
    NamesSplit(names, rest);
    NamesOfInside(names);
    WalkOfNames(fs, cur, text + rest, names + rest, hops);
    WalkDown(fs, cur, 0, names + rest, hops);
    assert cur[..0] == [] && cur[0..] + (names + rest) == cur + (names + rest);
  }

  lemma NamedTextCleans(fs: FileSystem, cur: Path, text: Path, rest: Path)
    requires Inside(cur) && Inside(rest) && ".." !in text
    ensures Inside(Names(text)) && CleanOnto(cur, text + rest) == cur + (Names(text) + rest)
    ensures !Escapes(cur + (Names(text) + rest))
  {
    var names := Names(text);
    DownOnly(cur, text);
    CleanOntoSplits(cur, text, rest);
    CleanOntoNames(cur + names, rest);
    assert cur + names + rest == cur + (names + rest);
    InsideConcat(names, rest);
    InsideConcat(cur, names + rest);
  }

  lemma InsideConcat(a: Path, b: Path)
    requires Inside(a) && Inside(b)
    ensures Inside(a + b) && !Escapes(a + b)
  {
    if a + b != [] { assert (a + b)[0] in a + b; }
  }

  /** Where link texts climb first, following links by lexical rewriting ends exactly where the walk
      ends: same target, same absence, same refusals. */
  lemma {:induction false} RewritingIsWalking(fs: FileSystem, raw: Path, hops: nat)
    requires TextsAreUpsFirst(fs)
    ensures End(fs, raw, hops) == Walk(fs, [], Clean(raw), hops)
    decreases hops
  {
    var path := Clean(raw);
    CleanStaysInside(raw);
    if !Escapes(path) && path != [] {
      WalkFollowsScan(fs, path, 0, hops);
      assert path[..0] == [] && path[0..] == path;
      ScanMeaning(fs, path, 0);
      match Scan(fs, path, 0)
      case Solid => assert End(fs, raw, hops) == Target(path, fs.lstat(path));
      case Gone => assert End(fs, raw, hops) == Absent(path);
      case Broken => assert End(fs, raw, hops) == Refused;
      case LinkAt(k) =>
        assert Scan(fs, path, 0) == LinkAt(k);
        if hops > 0 && Rewritten(fs, path, k).Some? {
          var text, rest := fs.readlink(path[..k + 1]).value, path[k + 1..];
          RewritingIsWalking(fs, LookAt(fs, raw).next, hops - 1);
          RewritingAgrees(fs, path[..k], text, rest, hops - 1);
          RewrittenCleans(path[..k], text, rest);
        } else {
          assert End(fs, raw, hops) == Refused;
        }
    }
  }

  lemma RewrittenCleans(cur: Path, text: Path, rest: Path)
    requires Inside(cur)
    ensures Clean(cur + text + rest) == CleanOnto(cur, text + rest)
  {
    CleanOntoSplits([], cur, text + rest);
    CleanOntoNames([], cur);
    assert cur + text + rest == cur + (text + rest) && [] + cur == cur;
  }

  /** The resolver, bounds included, against the walk. */
  lemma ResolverAgreesWithWalk(fs: FileSystem, raw: Path)
    requires TextsAreUpsFirst(fs)
    ensures Resolve(fs, raw, {}, 0) ==
            if Distinct(Links(fs, raw, MAX_DEPTH)) then Walk(fs, [], Clean(raw), MAX_DEPTH) else Refused
  {
    BoundsAreExact(fs, raw);
    RewritingIsWalking(fs, raw, MAX_DEPTH);
  }

  // ------------------------------------------------------------------ where the two differ

  lemma StepDown(fs: FileSystem, cur: Path, part: string, rest: Path, hops: nat)
    requires IsName(part) && IsSolid(fs, cur + [part])
    ensures Walk(fs, cur, [part] + rest, hops) == Walk(fs, cur + [part], rest, hops)
  {
    assert ([part] + rest)[1..] == rest;
  }

  lemma StepUp(fs: FileSystem, cur: Path, part: string, rest: Path, hops: nat)
    ensures Walk(fs, cur + [part], [".."] + rest, hops) == Walk(fs, cur, rest, hops)
  {
    assert ([".."] + rest)[1..] == rest && (cur + [part])[..|cur|] == cur;
  }

  lemma StepLink(fs: FileSystem, cur: Path, part: string, text: Path, rest: Path, hops: nat)
    requires IsName(part) && fs.lstat(cur + [part]).Found? && fs.lstat(cur + [part]).isLink && hops > 0
    requires fs.readlink(cur + [part]) == Some(text) && UsableText(text)
    ensures Walk(fs, cur, [part] + rest, hops) == Walk(fs, cur, text + rest, hops - 1)
  {
    assert ([part] + rest)[1..] == rest;
  }

  /** d/f is a file, l -> d, d/m -> ../l/f. */
  function RevisitingTree(): FileSystem {
    FileSystem(
      (path: Path) =>
        if path == ["d"] then Found(false, true)
        else if path == ["d", "f"] then Found(false, false)
        else if path == ["l"] || path == ["d", "m"] then Found(true, false)
        else NotExist,
      (path: Path) => if path == ["l"] then Some(["d"]) else if path == ["d", "m"] then Some(["..", "l", "f"]) else None)
  }

  lemma RevisitingWalk()
    ensures Walk(RevisitingTree(), [], ["l", "m"], MAX_DEPTH) == Target(["d", "f"], Found(false, false))
  {
    var fs := RevisitingTree();
    assert [] + ["l"] == ["l"] && ["d"] + ["m"] == ["d", "m"] && [] + ["d"] == ["d"] && ["d"] + ["f"] == ["d", "f"];
    assert ["l", "m"] == ["l"] + ["m"] && ["d"] + ["m"] + [] == ["d"] + ["m"];
    StepLink(fs, [], "l", ["d"], ["m"], 64);
    StepDown(fs, [], "d", ["m"], 63);
    StepLink(fs, ["d"], "m", ["..", "l", "f"], [], 63);
    assert ["m"] + [] == ["m"] && ["..", "l", "f"] + [] == [".."] + (["l"] + ["f"]);
    StepUp(fs, [], "d", ["l"] + ["f"], 62);
    StepLink(fs, [], "l", ["d"], ["f"], 62);
    StepDown(fs, [], "d", ["f"], 61);
    assert ["f"] == ["f"] + [];
    StepDown(fs, ["d"], "f", [], 61);
  }

  lemma FirstLook()
    ensures LookAt(RevisitingTree(), ["l", "m"]) == Follow(["l"], ["d", "m"])
  {
    CleanOntoNames([], ["l", "m"]);
    var path := ["l", "m"];
    assert path[..1] == ["l"] && path[..0] + ["d"] + path[1..] == ["d", "m"];
  }

  lemma SecondLook()
    ensures LookAt(RevisitingTree(), ["d", "m"]) == Follow(["d", "m"], ["d", "..", "l", "f"])
  {
    CleanOntoNames([], ["d", "m"]);
    var path := ["d", "m"];
    assert path[..1] == ["d"] && path[..2] == path && path[..1] + ["..", "l", "f"] + path[2..] == ["d", "..", "l", "f"];
  }

  lemma ThirdLook()
    ensures LookAt(RevisitingTree(), ["d", "..", "l", "f"]) == Follow(["l"], ["d", "f"])
  {
    CleanOntoNames([], ["l", "f"]);
    assert CleanOnto([], ["d", "..", "l", "f"]) == CleanOnto(["d"], ["..", "l", "f"]) == CleanOnto([], ["l", "f"]);
    var path := ["l", "f"];
    assert path[..1] == ["l"] && path[..0] + ["d"] + path[1..] == ["d", "f"];
  }

  /** A chain that is no loop but passes one link twice: the walk reaches a file, the resolver refuses. */
  lemma RevisitedLinkIsRefused()
    ensures var fs := RevisitingTree();
            && TextsAreUpsFirst(fs)
            && Walk(fs, [], ["l", "m"], MAX_DEPTH) == Target(["d", "f"], Found(false, false))
            && Resolve(fs, ["l", "m"], {}, 0) == Refused
  {
    FirstLook();
    SecondLook();
    ThirdLook();
    RevisitingWalk();
    var fs := RevisitingTree();
    assert Resolve(fs, ["d", "..", "l", "f"], {["l"]} + {["d", "m"]}, 2) == Refused;
    assert Resolve(fs, ["d", "m"], {} + {["l"]}, 1) == Refused;
  }

  /** a -> x/y, l -> a/../b, with files b and x/b. */
  function ClimbingTree(): FileSystem {
    FileSystem(
      (path: Path) =>
        if path == ["x"] || path == ["x", "y"] then Found(false, true)
        else if path == ["b"] || path == ["x", "b"] then Found(false, false)
        else if path == ["a"] || path == ["l"] then Found(true, false)
        else NotExist,
      (path: Path) => if path == ["a"] then Some(["x", "y"]) else if path == ["l"] then Some(["a", "..", "b"]) else None)
  }

  lemma ClimbingWalk()
    ensures Walk(ClimbingTree(), [], ["l"], MAX_DEPTH) == Target(["x", "b"], Found(false, false))
  {
    var fs := ClimbingTree();
    assert ["l"] == ["l"] + [] && [] + ["l"] == ["l"] && [] + ["a"] == ["a"] && [] + ["x"] == ["x"];
    StepLink(fs, [], "l", ["a", "..", "b"], [], 64);
    assert ["a", "..", "b"] + [] == ["a"] + ["..", "b"];
    StepLink(fs, [], "a", ["x", "y"], ["..", "b"], 63);
    assert ["x", "y"] + ["..", "b"] == ["x"] + (["y"] + ([".."] + ["b"])) && ["x"] + ["y"] == ["x", "y"];
    StepDown(fs, [], "x", ["y"] + ([".."] + ["b"]), 62);
    StepDown(fs, ["x"], "y", [".."] + ["b"], 62);
    StepUp(fs, ["x"], "y", ["b"], 62);
    assert ["b"] == ["b"] + [] && ["x"] + ["b"] == ["x", "b"];
    StepDown(fs, ["x"], "b", [], 62);
  }

  /** A text that climbs after a name: the resolver cancels "a/..", the walk goes through a's target. */
  lemma ClimbingTextDiffers()
    ensures var fs := ClimbingTree();
            && Resolve(fs, ["l"], {}, 0) == Target(["b"], Found(false, false))
            && Walk(fs, [], ["l"], MAX_DEPTH) == Target(["x", "b"], Found(false, false))
  {
    var fs := ClimbingTree();
    ClimbingWalk();
    CleanOntoNames([], ["b"]);
    assert CleanOnto([], ["a", "..", "b"]) == CleanOnto(["a"], ["..", "b"]) == CleanOnto([], ["b"]);
    assert LookAt(fs, ["l"]) == Follow(["l"], ["a", "..", "b"]);
    assert LookAt(fs, ["a", "..", "b"]) == Answer(Target(["b"], Found(false, false)));
  }
}
