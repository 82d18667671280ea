/** Climbing after a name is exactly what separates lexical rewriting from the walk: for every link
    text that does it there is a tree, all its other texts harmless, where the two end apart. */
module SymlinkClimb {
  import opened Wrappers
  import opened SymlinkResolver
  import opened SymlinkMeaning
  import opened SymlinkWalk

  // ------------------------------------------------------------------ taking a text apart

  /** ups and dots, then names and dots up to the name x, then dots, then the climb, then anything. */
  datatype Split = Split(ups: Path, down: Path, x: string, dots: Path, rest: Path) {
    function Text(): Path {
      ups + (down + ([x] + (dots + ([".."] + rest))))
    }
    predicate Valid() {
      && (forall part :: part in ups ==> !IsName(part))
      && ".." !in down && IsName(x)
      && (forall part :: part in dots ==> IsDot(part))
    }
  }

  lemma {:induction false} LeadingDots(text: Path) returns (n: nat)
    requires ".." in text
    ensures n < |text| && !IsDot(text[n]) && ".." in text[n..] && forall part :: part in text[..n] ==> IsDot(part)
  {
    if IsDot(text[0]) {
      assert text == [text[0]] + text[1..];
      n := LeadingDots(text[1..]);
      n := n + 1;
      assert text[n..] == text[1..][n - 1..] && text[..n] == [text[0]] + text[1..][..n - 1];
    } else {
      n := 0;
      assert text[0..] == text;
    }
  }

  lemma SplitHere(x: string, dots: Path, rest: Path) returns (split: Split)
    requires IsName(x) && forall part :: part in dots ==> IsDot(part)
    ensures split.Valid() && split.ups == [] && split.Text() == [x] + dots + [".."] + rest
  {
    split := Split([], [], x, dots, rest);
    assert split.Text() == [x] + (dots + ([".."] + rest));
    assert [x] + (dots + ([".."] + rest)) == [x] + dots + [".."] + rest;
  }

  lemma SplitLater(front: Path, later: Split) returns (split: Split)
    requires later.Valid() && later.ups == [] && ".." !in front
    ensures split.Valid() && split.ups == [] && split.Text() == front + later.Text()
  {
    split := later.(down := front + later.down);
    var after := [later.x] + (later.dots + ([".."] + later.rest));
    assert [] + (later.down + after) == later.down + after;
    assert front + later.down + after == front + (later.down + after);
  }

  /** A text that starts with a name and climbs somewhere. */
  lemma {:induction false} SplitNamed(text: Path) returns (split: Split)
    requires text != [] && IsName(text[0]) && ".." in text
    ensures split.Valid() && split.ups == [] && split.Text() == text
    decreases |text|
  {
    assert text == [text[0]] + text[1..];
    var n := LeadingDots(text[1..]);
    var dots, next := text[1..][..n], text[n + 1];
    assert next == text[1..][n] && text[1..][n..] == text[n + 1..];
    assert text == [text[0]] + dots + text[n + 1..];
    if next == ".." {
      assert text[n + 1..] == [".."] + text[n + 2..];
      assert [text[0]] + dots + [".."] + text[n + 2..] == [text[0]] + dots + ([".."] + text[n + 2..]);
      split := SplitHere(text[0], dots, text[n + 2..]);
    } else {
      split := SplitNamed(text[n + 1..]);
      split := SplitLater([text[0]] + dots, split);
    }
  }

  lemma {:induction false} SplitClimbing(text: Path) returns (split: Split)
    requires !UpsFirst(text)
    ensures split.Valid() && split.Text() == text
  {
    var i, j :| 0 <= i < j < |text| && text[j] == ".." && IsName(text[i]);
    if IsName(text[0]) {
      split := SplitNamed(text);
    } else {
      var tail := text[1..];
      assert tail[j - 1] == ".." && IsName(tail[i - 1]);
      split := SplitClimbing(tail);
      var ups := [text[0]] + split.ups;
      assert text == [text[0]] + tail;
      var after := split.down + ([split.x] + (split.dots + ([".."] + split.rest)));
      assert tail == split.ups + after && text == ups + after;
      split := split.(ups := ups);
    }
  }

  // ------------------------------------------------------------------ names a text does not use

  function TotalLength(text: Path): nat {
    if text == [] then 0 else |text[0]| + TotalLength(text[1..])
  }

  lemma {:induction false} PartIsShort(text: Path, part: string)
    requires part in text
    ensures |part| <= TotalLength(text)
  {
    if part != text[0] { PartIsShort(text[1..], part); }
  }

  /** A name of one repeated letter, longer than any part of the text. */
  function Unused(text: Path, letter: char): (name: string)
    requires letter != '.'
    ensures IsName(name) && |name| == TotalLength(text) + 1 && name[0] == letter
    ensures forall c :: c in name ==> c == letter
  {
    var name := seq(TotalLength(text) + 1, _ => letter);
    assert name[0] == letter && "."[0] == '.' && ".."[0] == '.';
    name
  }

  lemma UnusedIsUnused(text: Path, letter: char)
    requires letter != '.'
    ensures Unused(text, letter) !in text
  {
    if Unused(text, letter) in text { PartIsShort(text, Unused(text, letter)); }
  }

  function Copies(name: string, n: nat): (r: Path)
    ensures |r| == n && forall i :: 0 <= i < n ==> r[i] == name
  {
    seq(n, _ => name)
  }

  // ------------------------------------------------------------------ the tree

  /** Everything exists. A chain of directories d, one for every part of the text, holds a link l with
      the text; the name the text climbs out of is a link down a longer chain f beside it. */
  datatype Tree = Tree(split: Split, d: string, l: string, f: string) {
    function Text(): Path { split.Text() }
    function Base(): Path { Copies(d, |Text()|) }
    function Link(): Path { Base() + [l] }
    function Parent(): Path { CleanOnto(Base(), split.ups) + Names(split.down) }
    function Trap(): Path { Parent() + [split.x] }
    function Far(): Path { Copies(f, |Text()| + 1) }

    function Files(): FileSystem {
      FileSystem(
        (path: Path) => var isLink := path == Link() || path == Trap(); Found(isLink, !isLink),
        (path: Path) => if path == Link() then Some(Text()) else if path == Trap() then Some(Far()) else None)
    }

    predicate Valid() {
      && split.Valid() && UsableText(Text())
      && IsName(d) && IsName(l) && IsName(f) && '\0' !in f && d != l && d != f && l != f
      && d !in Text() && l !in Text() && f !in Text()
    }
  }

  lemma TreeFor(text: Path) returns (t: Tree)
    requires UsableText(text) && !UpsFirst(text)
    ensures t.Valid() && t.Text() == text
  {
    var split := SplitClimbing(text);
    UnusedIsUnused(text, 'd');
    UnusedIsUnused(text, 'l');
    UnusedIsUnused(text, 'f');
    t := Tree(split, Unused(text, 'd'), Unused(text, 'l'), Unused(text, 'f'));
  }

  // ------------------------------------------------------------------ the walk

  lemma {:induction false} WalkUps(fs: FileSystem, cur: Path, ups: Path, rest: Path, hops: nat)
    requires Inside(cur) && |ups| <= |cur| && forall part :: part in ups ==> !IsName(part)
    ensures CleanOnto(cur, ups) <= cur && Walk(fs, cur, ups + rest, hops) == Walk(fs, CleanOnto(cur, ups), rest, hops)
    decreases ups
  {
    if ups == [] {
      assert ups + rest == rest;
    } else {
      assert (ups + rest)[0] == ups[0] && ups[0] in ups && (ups + rest)[1..] == ups[1..] + rest;
      assert cur[|cur| - 1] in cur;
      if IsDot(ups[0]) {
        WalkUps(fs, cur, ups[1..], rest, hops);
      } else {
        WalkUps(fs, cur[..|cur| - 1], ups[1..], rest, hops);
      }
    }
  }

  lemma {:induction false} WalkText(fs: FileSystem, cur: Path, down: Path, rest: Path, hops: nat)
    requires ".." !in down && forall k :: 0 < k <= |Names(down)| ==> IsSolid(fs, cur + Names(down)[..k])
    ensures Walk(fs, cur, down + rest, hops) == Walk(fs, cur + Names(down), rest, hops)
    decreases down
  {
    if down == [] {
      assert down + rest == rest && cur + Names(down) == cur;
    } else {
      assert (down + rest)[0] == down[0] && down == [down[0]] + down[1..] && (down + rest)[1..] == down[1..] + rest;
      if IsDot(down[0]) {
        assert Names(down) == Names(down[1..]) && ".." !in down[1..];
        WalkText(fs, cur, down[1..], rest, hops);
      } else {
        var names := Names(down[1..]);
        assert Names(down) == [down[0]] + names && Names(down)[..1] == [down[0]];
        var path := cur + [down[0]];
        forall k | 0 < k <= |names| ensures IsSolid(fs, path + names[..k]) {
          assert path + names[..k] == cur + Names(down)[..k + 1];
        }
        WalkText(fs, path, down[1..], rest, hops);
        assert path + names == cur + Names(down);
      }
    }
  }

  // ------------------------------------------------------------------ what is a link in the tree

  lemma {:induction false} NamesFrom(parts: Path)
    ensures forall part :: part in Names(parts) ==> part in parts && !IsDot(part)
  {
    if parts != [] { NamesFrom(parts[1..]); }
  }

  lemma {:induction false} CleanOntoFrom(done: Path, parts: Path)
    ensures forall part :: part in CleanOnto(done, parts) ==> part in done || part in parts
    decreases parts
  {
    if parts != [] {
      if IsDot(parts[0]) {
        CleanOntoFrom(done, parts[1..]);
      } else if parts[0] == ".." && done != [] && done[|done| - 1] != ".." {
        CleanOntoFrom(done[..|done| - 1], parts[1..]);
      } else {
        CleanOntoFrom(done + [parts[0]], parts[1..]);
      }
    }
  }

  /** A text shorter than the directory is deep cannot leave it through the top. */
  lemma {:induction false} DeepStaysInside(done: Path, parts: Path)
    requires Inside(done) && |parts| <= |done|
    ensures Inside(CleanOnto(done, parts))
    decreases parts
  {
    if parts != [] {
      assert done[|done| - 1] in done;
      if IsDot(parts[0]) {
        DeepStaysInside(done, parts[1..]);
      } else if parts[0] == ".." {
        DeepStaysInside(done[..|done| - 1], parts[1..]);
      } else {
        DeepStaysInside(done + [parts[0]], parts[1..]);
      }
    }
  }

  /** Names that occur in the text, or in the chain d above it. */
  predicate Known(t: Tree, path: Path) {
    forall part :: part in path ==> part == t.d || part in t.Text()
  }

  lemma PartsOfText(t: Tree)
    requires t.split.Valid()
    ensures t.split.x in t.Text() && |t.split.ups| <= |t.Text()| && |t.split.rest| < |t.Text()|
    ensures forall part :: part in t.split.ups || part in t.split.down || part in t.split.rest ==> part in t.Text()
  {
  }

  lemma ParentIsKnown(t: Tree)
    requires t.Valid()
    ensures Inside(t.Base()) && Inside(t.Parent()) && Known(t, t.Parent())
  {
    PartsOfText(t);
    NamesFrom(t.split.down);
    DownOnly([], t.split.down);
    WalkUps(t.Files(), t.Base(), t.split.ups, [], 0);
    var top := CleanOnto(t.Base(), t.split.ups);
    forall part | part in top ensures part == t.d { assert part in t.Base(); }
  }

  lemma OnlyTwoLinks(t: Tree, path: Path)
    ensures IsSolid(t.Files(), path) <==> path != t.Link() && path != t.Trap()
  {
  }

  /** Nothing known is the link with the text. */
  lemma KnownIsNotLink(t: Tree, path: Path)
    requires t.Valid() && Known(t, path)
    ensures path != t.Link()
  {
    assert t.Link()[|t.Base()|] == t.l && t.l in t.Link();
  }

  lemma BaseIsSolid(t: Tree)
    requires t.Valid()
    ensures SolidPath(t.Files(), t.Base())
  {
    PartsOfText(t);
    var base := t.Base();
    forall k | 0 < k <= |base| ensures IsSolid(t.Files(), base[..k]) {
      OnlyTwoLinks(t, base[..k]);
      assert base[..k][k - 1] == t.d;
      assert t.Trap()[|t.Parent()|] == t.split.x;
    }
  }

  lemma DownIsSolid(t: Tree, k: nat)
    requires t.Valid() && 0 < k <= |Names(t.split.down)|
    ensures IsSolid(t.Files(), CleanOnto(t.Base(), t.split.ups) + Names(t.split.down)[..k])
  {
    var path := CleanOnto(t.Base(), t.split.ups) + Names(t.split.down)[..k];
    ParentIsKnown(t);
    assert path == t.Parent()[..|path|];
    assert Known(t, path);
    KnownIsNotLink(t, path);
    OnlyTwoLinks(t, path);
  }

  // ------------------------------------------------------------------ where the walk ends

  /** Below parent/f, and past the end of the chain f nothing is called f. */
  predicate Below(t: Tree, path: Path) {
    && t.Parent() + [t.f] <= path
    && forall i :: |t.Parent()| + |t.Text()| <= i < |path| ==> path[i] != t.f
  }

  lemma BelowIsSolid(t: Tree, path: Path, part: string)
    requires t.Valid() && t.Parent() + [t.f] <= path && part in t.Text()
    ensures IsSolid(t.Files(), path + [part])
  {
    PartsOfText(t);
    var longer, n := path + [part], |t.Parent()|;
    OnlyTwoLinks(t, longer);
    assert longer[n] == (t.Parent() + [t.f])[n] == t.f;
    assert longer[|path|] == part && t.Link()[|t.Base()|] == t.l && t.Trap()[n] == t.split.x;
  }

  lemma {:induction false} WalkBelow(t: Tree, cur: Path, rest: Path, hops: nat)
    requires t.Valid() && Below(t, cur) && |cur| > |t.Parent()| + |rest|
    requires forall part :: part in rest ==> part in t.Text()
    ensures var r := Walk(t.Files(), cur, rest, hops); r.Target? && Below(t, r.path)
    decreases rest
  {
    if rest != [] {
      assert rest[0] in rest;
      if IsDot(rest[0]) {
        WalkBelow(t, cur, rest[1..], hops);
      } else if rest[0] == ".." {
        var up := cur[..|cur| - 1];
        assert t.Parent() + [t.f] <= up;
        WalkBelow(t, up, rest[1..], hops);
      } else {
        var path := cur + [rest[0]];
        BelowIsSolid(t, cur, rest[0]);
        assert Below(t, path);
        WalkBelow(t, path, rest[1..], hops);
      }
    }
  }

  lemma FarIsSolid(t: Tree, k: nat)
    requires t.Valid() && 0 < k <= |t.Far()|
    ensures IsSolid(t.Files(), t.Parent() + t.Far()[..k])
  {
    PartsOfText(t);
    var path := t.Parent() + t.Far()[..k];
    OnlyTwoLinks(t, path);
    assert path[|path| - 1] == t.f && t.Link()[|t.Base()|] == t.l && t.Trap()[|t.Parent()|] == t.split.x;
  }

  lemma {:induction false} OnlyDots(dots: Path)
    requires forall part :: part in dots ==> IsDot(part)
    ensures Names(dots) == []
  {
    if dots != [] {
      assert dots[0] in dots;
      OnlyDots(dots[1..]);
    }
  }

  lemma DotsAreNothing(names: Path, dots: Path)
    requires Inside(names) && forall part :: part in dots ==> IsDot(part)
    ensures ".." !in names + dots && Names(names + dots) == names
  {
    NamesSplit(names, dots);
    NamesOfInside(names);
    OnlyDots(dots);
    assert names + [] == names;
  }

  lemma TrapLeadsFar(t: Tree, rest: Path, hops: nat)
    requires t.Valid() && hops > 0
    ensures Walk(t.Files(), t.Parent(), [t.split.x] + rest, hops) == Walk(t.Files(), t.Parent(), t.Far() + rest, hops - 1)
  {
    PartsOfText(t);
    assert t.Far()[0] == t.f && t.Link()[|t.Base()|] == t.l && t.Trap()[|t.Parent()|] == t.split.x;
    StepLink(t.Files(), t.Parent(), t.split.x, t.Far(), rest, hops);
  }

  lemma WalkFar(t: Tree, rest: Path, hops: nat)
    requires t.Valid()
    ensures Walk(t.Files(), t.Parent(), t.Far() + t.split.dots + rest, hops) == Walk(t.Files(), t.Parent() + t.Far(), rest, hops)
  {
    var down := t.Far() + t.split.dots;
    DotsAreNothing(t.Far(), t.split.dots);
    forall k | 0 < k <= |t.Far()| ensures IsSolid(t.Files(), t.Parent() + Names(down)[..k]) { FarIsSolid(t, k); }
    WalkText(t.Files(), t.Parent(), down, rest, hops);
  }

  lemma FarIsBelow(t: Tree)
    requires t.Valid()
    ensures Below(t, t.Parent() + Copies(t.f, |t.Text()|))
    ensures t.Parent() + t.Far() == t.Parent() + Copies(t.f, |t.Text()|) + [t.f]
  {
    PartsOfText(t);
  }

  /** At the far end: up once, and on through the rest. */
  lemma TurnBack(t: Tree, hops: nat)
    requires t.Valid()
    ensures var r := Walk(t.Files(), t.Parent() + t.Far(), [".."] + t.split.rest, hops); r.Target? && Below(t, r.path)
  {
    var cur := t.Parent() + Copies(t.f, |t.Text()|);
    FarIsBelow(t);
    PartsOfText(t);
    StepUp(t.Files(), cur, t.f, t.split.rest, hops);
    WalkBelow(t, cur, t.split.rest, hops);
  }

  lemma WalkFromTrap(t: Tree, hops: nat)
    requires t.Valid() && hops > 0
    ensures var r := Walk(t.Files(), t.Parent(), [t.split.x] + (t.split.dots + ([".."] + t.split.rest)), hops);
            r.Target? && Below(t, r.path)
  {
    var dots, climb := t.split.dots, [".."] + t.split.rest;
    TrapLeadsFar(t, dots + climb, hops);
    assert t.Far() + (dots + climb) == t.Far() + dots + climb;
    WalkFar(t, climb, hops - 1);
    TurnBack(t, hops - 1);
  }

  lemma WholeWalk(t: Tree)
    requires t.Valid()
    ensures var r := Walk(t.Files(), [], t.Link(), MAX_DEPTH); r.Target? && Below(t, r.path)
  {
    var fs, base, ups, down := t.Files(), t.Base(), t.split.ups, t.split.down;
    var after := [t.split.x] + (t.split.dots + ([".."] + t.split.rest));
    ParentIsKnown(t);
    BaseIsSolid(t);
    PartsOfText(t);
    WalkDown(fs, base, 0, [t.l], MAX_DEPTH);
    assert base[..0] == [] && base[0..] + [t.l] == t.Link() && [t.l] + [] == [t.l] && t.Text() + [] == t.Text();
    StepLink(fs, base, t.l, t.Text(), [], MAX_DEPTH);
    WalkUps(fs, base, ups, down + after, MAX_DEPTH - 1);
    forall k | 0 < k <= |Names(down)| ensures IsSolid(fs, CleanOnto(base, ups) + Names(down)[..k]) { DownIsSolid(t, k); }
    WalkText(fs, CleanOnto(base, ups), down, after, MAX_DEPTH - 1);
    WalkFromTrap(t, MAX_DEPTH - 1);
  }

  // ------------------------------------------------------------------ where the resolver ends

  lemma {:induction false} ScanSkips(fs: FileSystem, path: Path, k: nat, m: nat)
    requires k <= m <= |path| && forall j :: k < j <= m ==> IsSolid(fs, path[..j])
    ensures Scan(fs, path, k) == Scan(fs, path, m)
    decreases m - k
  {
    if k < m {
      assert IsSolid(fs, path[..k + 1]);
      ScanSkips(fs, path, k + 1, m);
    }
  }

  lemma CleanIsIdle(path: Path)
    requires Inside(path)
    ensures Clean(path) == path && !Escapes(path)
  {
    CleanOntoNames([], path);
    if path != [] { assert path[0] in path; }
  }

  lemma FirstStop(t: Tree)
    requires t.Valid()
    ensures LookAt(t.Files(), t.Link()) == Follow(t.Link(), t.Base() + t.Text())
  {
    var fs, path, n := t.Files(), t.Link(), |t.Base()|;
    ParentIsKnown(t);
    BaseIsSolid(t);
    InsideConcat(t.Base(), [t.l]);
    CleanIsIdle(path);
    forall j | 0 < j <= n ensures IsSolid(fs, path[..j]) { assert path[..j] == t.Base()[..j]; }
    ScanSkips(fs, path, 0, n);
    assert path[..n + 1] == path && path[..n] == t.Base() && path[n + 1..] == [];
    assert t.Base() + t.Text() + [] == t.Base() + t.Text();
  }

  /** The cleaned text, seen from the chain d: everything in it is known. */
  function CleanedText(t: Tree): Path {
    CleanOnto(t.Base(), t.Text())
  }

  lemma CleanedIsKnown(t: Tree)
    requires t.Valid()
    ensures Clean(t.Base() + t.Text()) == CleanedText(t) && Inside(CleanedText(t)) && Known(t, CleanedText(t))
  {
    ParentIsKnown(t);
    RewrittenCleans(t.Base(), t.Text(), []);
    assert t.Base() + t.Text() + [] == t.Base() + t.Text() && t.Text() + [] == t.Text();
    DeepStaysInside(t.Base(), t.Text());
    CleanOntoFrom(t.Base(), t.Text());
    forall part | part in t.Base() ensures part == t.d {}
  }

  /** The second look ends at a known path, or follows the trap with a known remainder. */
  lemma SecondStop(t: Tree)
    requires t.Valid()
    ensures var path, look := CleanedText(t), LookAt(t.Files(), t.Base() + t.Text());
            if t.Trap() <= path then look == Follow(t.Trap(), t.Parent() + t.Far() + path[|t.Trap()|..])
            else look.Answer? && look.result.Target? && look.result.path == path
  {
    var fs, path, n := t.Files(), CleanedText(t), |t.Parent()|;
    CleanedIsKnown(t);
    CleanIsIdle(path);
    var m := if t.Trap() <= path then n else |path|;
    forall j | 0 < j <= m ensures IsSolid(fs, path[..j]) {
      assert Known(t, path[..j]);
      KnownIsNotLink(t, path[..j]);
      OnlyTwoLinks(t, path[..j]);
    }
    ScanSkips(fs, path, 0, m);
    if t.Trap() <= path {
      assert path[..n + 1] == t.Trap() && path[..n] == t.Parent();
      KnownIsNotLink(t, path[..n + 1]);
    }
  }

  lemma ThirdStop(t: Tree, tail: Path)
    requires t.Valid() && Inside(tail) && Known(t, tail)
    ensures var look := LookAt(t.Files(), t.Parent() + t.Far() + tail);
            look.Answer? && look.result.Target? && look.result.path == t.Parent() + t.Far() + tail
  {
    var fs, path, n := t.Files(), t.Parent() + t.Far() + tail, |t.Parent()|;
    ParentIsKnown(t);
    PartsOfText(t);
    CleanIsIdle(path);
    forall j | 0 < j <= |path| ensures IsSolid(fs, path[..j]) {
      OnlyTwoLinks(t, path[..j]);
      assert t.Link()[|t.Base()|] == t.l && t.Trap()[n] == t.split.x;
      assert t.l !in path;
      assert j > n ==> path[..j][n] == t.f;
    }
    ScanSkips(fs, path, 0, |path|);
  }

  lemma WholeResolution(t: Tree)
    requires t.Valid()
    ensures var r := Resolve(t.Files(), t.Link(), {}, 0); r.Target? && !Below(t, r.path)
  {
    var fs, path := t.Files(), CleanedText(t);
    FirstStop(t);
    SecondStop(t);
    CleanedIsKnown(t);
    if t.Trap() <= path {
      var tail := path[|t.Trap()|..];
      ThirdStop(t, tail);
      var end := t.Parent() + t.Far() + tail;
      assert end[|t.Parent()| + |t.Text()|] == t.f;
    } else {
      assert (t.Parent() + [t.f])[|t.Parent()|] == t.f;
    }
  }

  // ------------------------------------------------------------------ the exact condition

  /** Every link text climbs first, apart from links with the given text. */
  ghost predicate OthersAreUpsFirst(fs: FileSystem, text: Path) {
    forall link :: fs.readlink(link).Some? && fs.readlink(link).value != text ==> UpsFirst(fs.readlink(link).value)
  }

  /** The resolver, bounds included, ends where the walk ends. */
  predicate Agree(fs: FileSystem, raw: Path) {
    Resolve(fs, raw, {}, 0) ==
    if Distinct(Links(fs, raw, MAX_DEPTH)) then Walk(fs, [], Clean(raw), MAX_DEPTH) else Refused
  }

  /** For any usable text that climbs after a name there is a tree, all other texts harmless, with a
      link of that text at which resolver and walk both reach a target, and not the same one. */
  lemma ClimbingTextEndsApart(text: Path) returns (fs: FileSystem, link: Path)
    requires UsableText(text) && !UpsFirst(text)
    ensures fs.lstat(link).Found? && fs.lstat(link).isLink && fs.readlink(link) == Some(text)
    ensures OthersAreUpsFirst(fs, text) && Clean(link) == link
    ensures var r, w := Resolve(fs, link, {}, 0), Walk(fs, [], link, MAX_DEPTH);
            r.Target? && w.Target? && r.path != w.path
  {
    var t := TreeFor(text);
    fs, link := t.Files(), t.Link();
    FirstStop(t);
    WholeWalk(t);
    WholeResolution(t);
    ParentIsKnown(t);
    InsideConcat(t.Base(), [t.l]);
    CleanIsIdle(link);
  }

  /** Resolver and walk agree in every tree whose other texts climb first, from every path, exactly
      when the text does so too. */
  lemma ClimbingFirstIsExact(text: Path)
    requires UsableText(text)
    ensures UpsFirst(text) <==> forall fs: FileSystem, raw: Path :: OthersAreUpsFirst(fs, text) ==> Agree(fs, raw)
  {
    if UpsFirst(text) {
      forall fs: FileSystem, raw: Path | OthersAreUpsFirst(fs, text) ensures Agree(fs, raw) {
        ResolverAgreesWithWalk(fs, raw);
      }
    } else {
      var fs, link := ClimbingTextEndsApart(text);
      assert OthersAreUpsFirst(fs, text) && !Agree(fs, link);
    }
  }
}
