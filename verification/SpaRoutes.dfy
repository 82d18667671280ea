/** The two scripts that carry a deep link through the GitHub Pages not-found page: one packs the route
    into the query of the index page, the other unpacks it. */
module SpaRoutes {
  import opened Wrappers

  /** The parts of a page address: the search part is empty or "?" and a query, the hash empty or "#"
      and a fragment. */
  datatype Location = Location(pathname: string, search: string, hash: string)

  // ------------------------------------------------------------------ string operations

  function Split(s: string, c: char): (r: seq<string>)
    ensures r != []
  {
    if s == [] then [""]
    else if s[0] == c then [""] + Split(s[1..], c)
    else
      var rest := Split(s[1..], c);
      [[s[0]] + rest[0]] + rest[1..]
  }

  function Join(parts: seq<string>, separator: string): string {
    if parts == [] then "" else if |parts| == 1 then parts[0] else parts[0] + separator + Join(parts[1..], separator)
  }

  /** replace(/&/g, "~and~"). */
  function EncodeAmpersands(s: string): string {
    if s == [] then [] else (if s[0] == '&' then "~and~" else [s[0]]) + EncodeAmpersands(s[1..])
  }

  /** replace(/~and~/g, "&"), leftmost matches first. */
  function DecodeAmpersands(s: string): string {
    if s == [] then []
    else if "~and~" <= s then "&" + DecodeAmpersands(s[5..])
    else [s[0]] + DecodeAmpersands(s[1..])
  }

  function Map(parts: seq<string>): seq<string> {
    if parts == [] then [] else [DecodeAmpersands(parts[0])] + Map(parts[1..])
  }

  function Take<T>(s: seq<T>, n: nat): seq<T> { if n < |s| then s[..n] else s }
  function Drop<T>(s: seq<T>, n: nat): seq<T> { if n < |s| then s[n..] else [] }

  function IndexOf(s: string, c: char): (r: nat)
    ensures r <= |s| && (forall i :: 0 <= i < r ==> s[i] != c) && (r < |s| ==> s[r] == c)
  {
    if s == [] || s[0] == c then 0 else 1 + IndexOf(s[1..], c)
  }

  /** A same-origin address read back: the fragment from the first "#", the query from the first "?"
      before it; an empty query or fragment reads as none. */
  function Parse(url: string): Location {
    var h := IndexOf(url, '#');
    var q := IndexOf(url[..h], '?');
    Location(url[..q], if h - q > 1 then url[q..h] else "", if |url| - h > 1 then url[h..] else "")
  }

  // ------------------------------------------------------------------ the two scripts

  /** Where the not-found page redirects. */
  function Redirect(l: Location): string {
    var basePath := Join(Take(Split(l.pathname, '/'), 2), "/");
    var routePath := EncodeAmpersands(Join(Drop(Split(Drop(l.pathname, 1), '/'), 1), "/"));
    var query := if l.search != "" then "&" + EncodeAmpersands(Drop(l.search, 1)) else "";
    basePath + "/?/" + routePath + query + l.hash
  }

  /** What the index page restores; other addresses it leaves alone. */
  function Restore(l: Location): Location {
    if |l.search| < 2 || l.search[1] != '/' then l
    else
      var decoded := Join(Map(Split(l.search[1..], '&')), "?");
      Parse(Take(l.pathname, if l.pathname == "" then 0 else |l.pathname| - 1) + decoded + l.hash)
  }

  // ------------------------------------------------------------------ the ampersand code

  /** Text that already contains the code for "&", or would once the next "&" is coded. */
  ghost predicate Ambiguous(s: string) {
    exists i :: 0 <= i <= |s| && AmbiguousAt(s[i..])
  }

  predicate AmbiguousAt(s: string) {
    "~and~" <= s || "~and&" <= s
  }

  lemma {:induction false} AmbiguousUnfolds(s: string)
    requires s != []
    ensures Ambiguous(s) <==> AmbiguousAt(s) || Ambiguous(s[1..])
  {
    assert s[0..] == s;
    if Ambiguous(s) && !AmbiguousAt(s) {
      var i :| 0 <= i <= |s| && AmbiguousAt(s[i..]);
      assert s[1..][i - 1..] == s[i..];
    }
    if Ambiguous(s[1..]) {
      var i :| 0 <= i <= |s[1..]| && AmbiguousAt(s[1..][i..]);
      assert s[1..][i..] == s[i + 1..];
    }
  }

  lemma EncodedStart(s: string)
    ensures s != [] && s[0] != '&' ==> ("~and~" <= EncodeAmpersands(s) <==> AmbiguousAt(s))
  {
    if s != [] && s[0] != '&' {
      EncodedFirst(s);
      if |s| > 1 { EncodedFirst(s[1..]); }
      if |s| > 2 { EncodedFirst(s[2..]); }
      if |s| > 3 { EncodedFirst(s[3..]); }
      if |s| > 4 { EncodedFirst(s[4..]); }
      FirstFive(s);
      FirstFive(EncodeAmpersands(s));
      EncodedFive(s);
    }
  }

  lemma EncodedFirst(s: string)
    requires s != []
    ensures EncodeAmpersands(s) != [] && EncodeAmpersands(s)[0] == (if s[0] == '&' then '~' else s[0])
    ensures s[0] != '&' ==> EncodeAmpersands(s)[1..] == EncodeAmpersands(s[1..])
  {
  }

  lemma FirstFive(s: string)
    ensures "~and~" <= s <==> |s| >= 5 && s[0] == '~' && s[1] == 'a' && s[2] == 'n' && s[3] == 'd' && s[4] == '~'
    ensures "~and&" <= s <==> |s| >= 5 && s[0] == '~' && s[1] == 'a' && s[2] == 'n' && s[3] == 'd' && s[4] == '&'
  {
  }

  /** The code for "&" starts with "~", so "~and" in coded text was there before. */
  lemma EncodedFive(s: string)
    requires s != [] && s[0] != '&'
    ensures var e := EncodeAmpersands(s);
            (|e| >= 5 && e[0] == '~' && e[1] == 'a' && e[2] == 'n' && e[3] == 'd' && e[4] == '~') <==>
            (|s| >= 5 && s[0] == '~' && s[1] == 'a' && s[2] == 'n' && s[3] == 'd' && (s[4] == '~' || s[4] == '&'))
  {
    var e := EncodeAmpersands(s);
    EncodedFirst(s);
    assert e == [s[0]] + EncodeAmpersands(s[1..]);
    if |s| > 1 && s[1] == 'a' {
      EncodedFirst(s[1..]);
      assert EncodeAmpersands(s[1..]) == ['a'] + EncodeAmpersands(s[2..]);
      if |s| > 2 && s[2] == 'n' {
        EncodedFirst(s[2..]);
        assert EncodeAmpersands(s[2..]) == ['n'] + EncodeAmpersands(s[3..]);
        if |s| > 3 && s[3] == 'd' {
          EncodedFirst(s[3..]);
          assert EncodeAmpersands(s[3..]) == ['d'] + EncodeAmpersands(s[4..]);
          if |s| > 4 { EncodedFirst(s[4..]); } else { assert s[4..] == []; }
        } else if |s| > 3 {
          EncodedFirst(s[3..]);
        } else {
          assert s[3..] == [];
        }
      } else if |s| > 2 {
        EncodedFirst(s[2..]);
      } else {
        assert s[2..] == [];
      }
    } else if |s| > 1 {
      EncodedFirst(s[1..]);
    } else {
      assert s[1..] == [];
    }
  }

  /** Coding and decoding gives text back exactly when it is not ambiguous. */
  lemma {:induction false} AmpersandsRoundTrip(s: string)
    ensures DecodeAmpersands(EncodeAmpersands(s)) == s <==> !Ambiguous(s)
  {
    if s == [] {
    } else {
      AmbiguousUnfolds(s);
      AmpersandsRoundTrip(s[1..]);
      var e := EncodeAmpersands(s);
      assert s == [s[0]] + s[1..];
      if s[0] == '&' {
        assert e[5..] == EncodeAmpersands(s[1..]);
      } else {
        EncodedStart(s);
        EncodedFirst(s);
      }
    }
  }

  // ------------------------------------------------------------------ splitting and joining

  lemma {:induction false} JoinSplit(s: string, c: char)
    ensures Join(Split(s, c), [c]) == s
  {
    if s != [] {
      JoinSplit(s[1..], c);
      var rest := Split(s[1..], c);
      assert s == [s[0]] + s[1..];
      if s[0] == c {
        assert ([""] + rest)[1..] == rest;
      } else {
        var all := [[s[0]] + rest[0]] + rest[1..];
        assert all[1..] == rest[1..] && all[0] == [s[0]] + rest[0];
        if |rest| > 1 { assert Join(all, [c]) == [s[0]] + (rest[0] + [c] + Join(rest[1..], [c])); }
      }
    }
  }

  lemma {:induction false} SplitAfter(a: string, b: string, c: char)
    requires c !in a
    ensures Split(a + [c] + b, c) == [a] + Split(b, c)
  {
    if a == [] {
      assert ([c] + b)[1..] == b && a + [c] + b == [c] + b;
    } else {
      assert (a + [c] + b)[1..] == a[1..] + [c] + b;
      SplitAfter(a[1..], b, c);
      assert [a[0]] + a[1..] == a;
    }
  }

  lemma {:induction false} SplitOfOne(a: string, c: char)
    requires c !in a
    ensures Split(a, c) == [a]
  {
    if a != [] {
      SplitOfOne(a[1..], c);
      assert [a[0]] + a[1..] == a;
    }
  }

  lemma {:induction false} EncodedHasNoAmpersand(s: string)
    ensures '&' !in EncodeAmpersands(s)
  {
    if s != [] { EncodedHasNoAmpersand(s[1..]); }
  }

  /** Characters other than "&" neither appear nor disappear in coding and decoding. */
  lemma {:induction false} CodingKeeps(s: string, c: char)
    requires c !in "~and&"
    ensures c in EncodeAmpersands(s) <==> c in s
    decreases |s|
  {
    if s != [] {
      CodingKeeps(s[1..], c);
      assert s == [s[0]] + s[1..];
    }
  }

  lemma {:induction false} DecodingKeeps(s: string, c: char)
    requires c !in "~and&"
    ensures c in DecodeAmpersands(s) <==> c in s
    decreases |s|
  {
    if s != [] {
      if "~and~" <= s {
        DecodingKeeps(s[5..], c);
        assert s == "~and~" + s[5..];
      } else {
        DecodingKeeps(s[1..], c);
        assert s == [s[0]] + s[1..];
      }
    }
  }

  lemma {:induction false} DecodingKeepsSomething(s: string)
    requires s != ""
    ensures DecodeAmpersands(s) != ""
  {
  }

  // ------------------------------------------------------------------ the round trip

  /** A page address as the browser reports it. */
  predicate WellFormed(l: Location) {
    && '?' !in l.pathname && '#' !in l.pathname
    && (l.search == "" || (|l.search| > 1 && l.search[0] == '?' && '#' !in l.search))
    && (l.hash == "" || (|l.hash| > 1 && l.hash[0] == '#'))
  }

  predicate IsSegment(seg: string) {
    seg != "" && '/' !in seg
  }

  lemma {:induction false} FirstIndexIn(a: string, b: string, c: char)
    requires c !in a
    ensures IndexOf(a + b, c) == |a| + IndexOf(b, c)
  {
    if a == [] {
      assert a + b == b;
    } else {
      assert (a + b)[1..] == a[1..] + b;
      FirstIndexIn(a[1..], b, c);
    }
  }

  /** Whatever is read back has a query and a fragment only if they say something. */
  lemma ParsedIsWellFormed(url: string)
    ensures WellFormed(Parse(url))
  {
    var h := IndexOf(url, '#');
    var q := IndexOf(url[..h], '?');
    assert forall i :: 0 <= i < h ==> url[..h][i] == url[i];
    assert forall i :: 0 <= i < q ==> url[..q][i] == url[..h][i];
    assert forall i :: 0 <= i < h - q ==> url[q..h][i] == url[q + i];
  }

  /** Reading back an address put together from its parts. */
  lemma ParseParts(l: Location)
    requires WellFormed(l)
    ensures Parse(l.pathname + l.search + l.hash) == l
  {
    var before := l.pathname + l.search;
    var url := before + l.hash;
    FirstIndexIn(before, l.hash, '#');
    assert url[..|before|] == before && url[|before|..] == l.hash;
    FirstIndexIn(l.pathname, l.search, '?');
    assert before[..|l.pathname|] == l.pathname && before[|l.pathname|..] == l.search;
    assert url[..|l.pathname|] == l.pathname && url[|l.pathname|..|before|] == l.search;
  }

  function PackedRoute(l: Location, rest: string): string {
    "/" + EncodeAmpersands(rest) + if l.search != "" then "&" + EncodeAmpersands(l.search[1..]) else ""
  }

  function Packed(l: Location, rest: string): string {
    "?" + PackedRoute(l, rest)
  }

  lemma BaseOf(seg: string, rest: string, pathname: string)
    requires IsSegment(seg) && pathname == "/" + seg + "/" + rest
    ensures Join(Take(Split(pathname, '/'), 2), "/") == "/" + seg
  {
    var tail := seg + ['/'] + rest;
    assert pathname == "" + ['/'] + tail;
    SplitAfter("", tail, '/');
    SplitAfter(seg, rest, '/');
    var parts := Split(pathname, '/');
    assert parts == ["", seg] + Split(rest, '/');
    assert Take(parts, 2) == ["", seg] && ["", seg][1..] == [seg];
  }

  lemma RouteOf(seg: string, rest: string, pathname: string)
    requires IsSegment(seg) && pathname == "/" + seg + "/" + rest
    ensures Join(Drop(Split(Drop(pathname, 1), '/'), 1), "/") == rest
  {
    assert Drop(pathname, 1) == seg + ['/'] + rest;
    SplitAfter(seg, rest, '/');
    assert Drop([seg] + Split(rest, '/'), 1) == Split(rest, '/');
    JoinSplit(rest, '/');
  }

  lemma RedirectOf(l: Location, seg: string, rest: string)
    requires WellFormed(l) && IsSegment(seg) && l.pathname == "/" + seg + "/" + rest
    ensures Redirect(l) == "/" + seg + "/" + Packed(l, rest) + l.hash
  {
    BaseOf(seg, rest, l.pathname);
    RouteOf(seg, rest, l.pathname);
    var query := if l.search != "" then "&" + EncodeAmpersands(Drop(l.search, 1)) else "";
    Regrouped("/" + seg, EncodeAmpersands(rest), query);
  }

  lemma Regrouped(base: string, route: string, query: string)
    ensures base + "/?/" + route + query == base + "/" + ("?" + ("/" + route + query))
  {
    assert "/?/" == "/" + "?" + "/";
    assert base + "/?/" == base + "/" + "?" + "/";
  }

  lemma PackedIsSearch(l: Location, seg: string, rest: string)
    requires WellFormed(l) && IsSegment(seg) && l.pathname == "/" + seg + "/" + rest
    ensures WellFormed(Location("/" + seg + "/", Packed(l, rest), l.hash))
  {
    CodingKeeps(rest, '#');
    if l.search != "" { CodingKeeps(l.search[1..], '#'); }
    forall c | c in rest ensures c in l.pathname {}
    forall c | c in "/" + seg + "/" ensures c in l.pathname {}
  }

  /** The address that unpacking restores: each half decoded on its own. */
  function Unpacked(l: Location, seg: string, rest: string): Location {
    Location("/" + seg + "/" + DecodeAmpersands(EncodeAmpersands(rest)),
             if l.search == "" then "" else "?" + DecodeAmpersands(EncodeAmpersands(l.search[1..])), l.hash)
  }

  lemma MapTwo(first: string, second: string)
    ensures Join(Map([first, second]), "?") == DecodeAmpersands(first) + "?" + DecodeAmpersands(second)
    ensures Join(Map([first]), "?") == DecodeAmpersands(first)
  {
    assert [first, second][1..] == [second];
    assert Map([second]) == [DecodeAmpersands(second)];
    var mapped := [DecodeAmpersands(first), DecodeAmpersands(second)];
    assert Map([first, second]) == mapped && mapped[1..] == [DecodeAmpersands(second)];
  }

  lemma SlashSurvives(coded: string)
    ensures DecodeAmpersands("/" + coded) == "/" + DecodeAmpersands(coded)
  {
    var first := "/" + coded;
    assert first[0] == '/' && "~and~"[0] == '~' && first[1..] == coded;
  }

  lemma DecodedOf(l: Location, rest: string)
    requires WellFormed(l)
    ensures Join(Map(Split(PackedRoute(l, rest), '&')), "?") ==
            "/" + DecodeAmpersands(EncodeAmpersands(rest)) +
            if l.search == "" then "" else "?" + DecodeAmpersands(EncodeAmpersands(l.search[1..]))
  {
    var first := "/" + EncodeAmpersands(rest);
    EncodedHasNoAmpersand(rest);
    SlashSurvives(EncodeAmpersands(rest));
    if l.search == "" {
      assert PackedRoute(l, rest) == first;
      DecodedParts(first, None);
    } else {
      EncodedHasNoAmpersand(l.search[1..]);
      assert PackedRoute(l, rest) == first + "&" + EncodeAmpersands(l.search[1..]);
      DecodedParts(first, Some(EncodeAmpersands(l.search[1..])));
      assert "/" + DecodeAmpersands(EncodeAmpersands(rest)) + "?" + DecodeAmpersands(EncodeAmpersands(l.search[1..])) ==
             "/" + DecodeAmpersands(EncodeAmpersands(rest)) + ("?" + DecodeAmpersands(EncodeAmpersands(l.search[1..])));
    }
  }

  lemma DecodedParts(first: string, second: Option<string>)
    requires '&' !in first && (second.Some? ==> '&' !in second.value)
    ensures second.None? ==> Join(Map(Split(first, '&')), "?") == DecodeAmpersands(first)
    ensures second.Some? ==>
              Join(Map(Split(first + "&" + second.value, '&')), "?") == DecodeAmpersands(first) + "?" + DecodeAmpersands(second.value)
  {
    SplitOfOne(first, '&');
    if second.Some? {
      SplitAfter(first, second.value, '&');
      SplitOfOne(second.value, '&');
      assert [first] + [second.value] == [first, second.value];
    }
    MapTwo(first, if second.Some? then second.value else "");
  }

  lemma UnpackingOf(l: Location, seg: string, rest: string)
    requires WellFormed(l) && IsSegment(seg) && l.pathname == "/" + seg + "/" + rest
    ensures Restore(Location("/" + seg + "/", Packed(l, rest), l.hash)) == Unpacked(l, seg, rest)
  {
    DecodedOf(l, rest);
    var u := Unpacked(l, seg, rest);
    UnpackedIsWellFormed(l, seg, rest);
    ParseParts(u);
    var route := DecodeAmpersands(EncodeAmpersands(rest));
    Regroup("/" + seg, "/", route, u.search, l.hash);
    PackedStartsWithSlash(l, rest);
    assert Packed(l, rest)[1..] == PackedRoute(l, rest);
    RestoreDecoded(Location("/" + seg + "/", Packed(l, rest), l.hash), "/" + seg, "/" + route + u.search);
  }

  lemma Regroup(a: string, b: string, c: string, d: string, e: string)
    ensures a + (b + c + d) + e == a + b + c + d + e
  {
  }

  lemma PackedStartsWithSlash(l: Location, rest: string)
    requires WellFormed(l)
    ensures |Packed(l, rest)| >= 2 && Packed(l, rest)[1] == '/'
  {
  }

  lemma RestoreDecoded(l: Location, base: string, decoded: string)
    requires |l.search| >= 2 && l.search[1] == '/' && l.pathname == base + "/" && Join(Map(Split(l.search[1..], '&')), "?") == decoded
    ensures Restore(l) == Parse(base + decoded + l.hash)
  {
    assert Take(l.pathname, |l.pathname| - 1) == base;
  }

  lemma UnpackedIsWellFormed(l: Location, seg: string, rest: string)
    requires WellFormed(l) && IsSegment(seg) && l.pathname == "/" + seg + "/" + rest
    ensures WellFormed(Unpacked(l, seg, rest))
  {
    forall c | c in rest ensures c in l.pathname {}
    forall c | c in "/" + seg + "/" ensures c in l.pathname {}
    CodingKeeps(rest, '?');
    DecodingKeeps(EncodeAmpersands(rest), '?');
    CodingKeeps(rest, '#');
    DecodingKeeps(EncodeAmpersands(rest), '#');
    if l.search != "" {
      CodingKeeps(l.search[1..], '#');
      DecodingKeeps(EncodeAmpersands(l.search[1..]), '#');
      EncodedFirst(l.search[1..]);
      DecodingKeepsSomething(EncodeAmpersands(l.search[1..]));
    }
  }

  /** A deep link below one path segment comes back exactly as it was if and only if neither its route
      nor its query is ambiguous; "&", "?" and "/" in them do no harm. */
  lemma DeepLinksRoundTrip(l: Location, seg: string, rest: string)
    requires WellFormed(l) && IsSegment(seg) && l.pathname == "/" + seg + "/" + rest
    ensures Restore(Parse(Redirect(l))) == l <==> !Ambiguous(rest) && (l.search == "" || !Ambiguous(l.search[1..]))
  {
    RestoredIsUnpacked(l, seg, rest);
    UnpackedIsOriginal(l, seg, rest);
    AmpersandsRoundTrip(rest);
    if l.search != "" { AmpersandsRoundTrip(l.search[1..]); }
  }

  lemma RestoredIsUnpacked(l: Location, seg: string, rest: string)
    requires WellFormed(l) && IsSegment(seg) && l.pathname == "/" + seg + "/" + rest
    ensures Restore(Parse(Redirect(l))) == Unpacked(l, seg, rest)
  {
    RedirectOf(l, seg, rest);
    PackedIsSearch(l, seg, rest);
    ParseParts(Location("/" + seg + "/", Packed(l, rest), l.hash));
    UnpackingOf(l, seg, rest);
  }

  lemma UnpackedIsOriginal(l: Location, seg: string, rest: string)
    requires WellFormed(l) && IsSegment(seg) && l.pathname == "/" + seg + "/" + rest
    ensures Unpacked(l, seg, rest) == l <==>
              DecodeAmpersands(EncodeAmpersands(rest)) == rest &&
              (l.search == "" || DecodeAmpersands(EncodeAmpersands(l.search[1..])) == l.search[1..])
  {
    SamePath("/" + seg + "/", DecodeAmpersands(EncodeAmpersands(rest)), rest);
    if l.search != "" {
      assert l.search == "?" + l.search[1..];
      SamePath("?", DecodeAmpersands(EncodeAmpersands(l.search[1..])), l.search[1..]);
    }
  }

  lemma SamePath(prefix: string, a: string, b: string)
    ensures prefix + a == prefix + b <==> a == b
  {
    assert (prefix + a)[|prefix|..] == a && (prefix + b)[|prefix|..] == b;
  }

  /** In particular every deep link free of "~" survives. */
  lemma LinksWithoutTildeRoundTrip(l: Location, seg: string, rest: string)
    requires WellFormed(l) && IsSegment(seg) && l.pathname == "/" + seg + "/" + rest
    requires '~' !in rest && '~' !in l.search
    ensures Restore(Parse(Redirect(l))) == l
  {
    DeepLinksRoundTrip(l, seg, rest);
    NoTildeNoAmbiguity(rest);
    if l.search != "" {
      assert forall c :: c in l.search[1..] ==> c in l.search;
      NoTildeNoAmbiguity(l.search[1..]);
    }
  }

  lemma NoTildeNoAmbiguity(s: string)
    requires '~' !in s
    ensures !Ambiguous(s)
  {
    forall i | 0 <= i <= |s| ensures !AmbiguousAt(s[i..]) {
      if i < |s| { assert s[i..][0] == s[i] && s[i] in s; }
    }
  }

  lemma PartsOfSegment(seg: string)
    requires IsSegment(seg)
    ensures Join(Take(Split("/" + seg, '/'), 2), "/") == "/" + seg
    ensures Join(Drop(Split(Drop("/" + seg, 1), '/'), 1), "/") == ""
  {
    SplitOfOne(seg, '/');
    assert "/" + seg == "" + ['/'] + seg;
    SplitAfter("", seg, '/');
    assert [""] + [seg] == ["", seg];
    assert Take(["", seg], 2) == ["", seg] && ["", seg][1..] == [seg];
    assert Drop("/" + seg, 1) == seg;
  }

  /** The segment alone is packed like the directory it names, */
  lemma SegmentIsPackedAlike(l: Location, seg: string)
    requires IsSegment(seg) && l.pathname == "/" + seg
    ensures Redirect(l) == Redirect(l.(pathname := "/" + seg + "/"))
  {
    PartsOfSegment(seg);
    var below := "/" + seg + "/";
    assert below == "/" + seg + "/" + "";
    BaseOf(seg, "", below);
    RouteOf(seg, "", below);
  }

  /** so it comes back with a slash. */
  lemma SegmentGainsSlash(l: Location, seg: string)
    requires WellFormed(l) && IsSegment(seg) && l.pathname == "/" + seg
    ensures Restore(Parse(Redirect(l))) == l.(pathname := "/" + seg + "/") <==> l.search == "" || !Ambiguous(l.search[1..])
  {
    SegmentIsPackedAlike(l, seg);
    var below := l.(pathname := "/" + seg + "/");
    assert below.pathname == "/" + seg + "/" + "";
    forall c | c in below.pathname ensures c in l.pathname {}
    DeepLinksRoundTrip(below, seg, "");
    NoTildeNoAmbiguity("");
  }

  /** An address whose query does not start with a slash was not packed and is left as it is. */
  lemma OthersAreLeftAlone(l: Location)
    requires WellFormed(l)
    ensures (forall rest :: l.search != "?/" + rest) ==> Restore(l) == l
  {
    if |l.search| >= 2 && l.search[1] == '/' { assert l.search == "?/" + l.search[2..]; }
  }
}
