/**
 * The navigation graph's routes: the fixed screen routes, the argument routes
 * of the detail and reader screens, the start destination, bottom-bar
 * membership, and the Base64 form in which chapter URLs travel as route arguments.
 */
module Navigation {
  import opened Wrappers
  import Utf8
  import Base64

  const LoginRoute: string := "login"
  const HomeRoute: string := "home"
  const ExploreRoute: string := "explore"
  const LibraryRoute: string := "library"
  const SettingsRoute: string := "settings"
  const StorageRoute: string := "storage"
  const DetailPrefix: string := "detail/"
  const ReaderPrefix: string := "reader/"
  /** What separates a reader route's chapter argument from its manga slug. */
  const SlugQuery: string := "?mangaSlug="

  /** `Screen.Detail.createRoute(mangaId)`. */
  function DetailRoute(mangaId: string): (r: string)
    ensures |r| == |DetailPrefix| + |mangaId|
    ensures r[..|DetailPrefix|] == DetailPrefix && r[|DetailPrefix|..] == mangaId
  {
    DetailPrefix + mangaId
  }

  /** The manga id of a detail route; `None` for any other route. */
  function ParseDetailRoute(route: string): (r: Option<string>)
    ensures r.Some? ==> DetailRoute(r.value) == route
  {
    if DetailPrefix <= route then Some(route[|DetailPrefix|..]) else None
  }

  /** `Screen.Reader.createRoute(chapterId, mangaSlug)`: the slug query only when there is a slug. */
  function ReaderRoute(chapterId: string, mangaSlug: Option<string>): (r: string)
    ensures ReaderPrefix <= r
    ensures mangaSlug.None? ==> r[|ReaderPrefix|..] == chapterId
    ensures mangaSlug.Some? ==>
      r[|ReaderPrefix|..] == chapterId + SlugQuery + mangaSlug.value
  {
    match mangaSlug
    case None => ReaderPrefix + chapterId
    case Some(slug) => ReaderPrefix + chapterId + SlugQuery + slug
  }

  /** The index of the first `c` in `s`, or `|s|` when there is none. */
  function IndexOf(s: string, c: char): (i: nat)
    ensures i <= |s|
    ensures forall k :: 0 <= k < i ==> s[k] != c
    ensures i < |s| ==> s[i] == c
  {
    if s == [] then 0
    else if s[0] == c then 0
    else 1 + IndexOf(s[1..], c)
  }

  /**
   * The chapter argument and optional slug of a reader route, as the
   * navigation library matches it against the reader pattern; `None` when
   * the route is not a reader route.
   */
  function ParseReaderRoute(route: string): (r: Option<(string, Option<string>)>)
    ensures r.Some? ==> '?' !in r.value.0
  {
    if !(ReaderPrefix <= route) then None
    else
      var rest := route[|ReaderPrefix|..];
      var q := IndexOf(rest, '?');
      if q == |rest| then Some((rest, None))
      else if SlugQuery <= rest[q..] then Some((rest[..q], Some(rest[q + |SlugQuery|..])))
      else None
  }

  /** Any chapter argument without '?' comes back from its route unchanged, with its slug. */
  lemma ReaderRouteRoundTrip(chapterId: string, mangaSlug: Option<string>)
    requires '?' !in chapterId
    ensures ParseReaderRoute(ReaderRoute(chapterId, mangaSlug)) == Some((chapterId, mangaSlug))
  {
    var route := ReaderRoute(chapterId, mangaSlug);
    var rest := route[|ReaderPrefix|..];
    IndexOfAbsent(chapterId, rest, '?');
    if mangaSlug.Some? {
      assert rest[|chapterId|..] == SlugQuery + mangaSlug.value;
      assert rest[..|chapterId|] == chapterId;
    } else {
      assert rest == chapterId;
    }
  }

  /** When `c` does not occur in a prefix `p`, the first `c` is at or after `|p|`. */
  lemma {:induction false} IndexOfAbsent(p: string, s: string, c: char)
    requires p <= s && c !in p
    ensures IndexOf(s, c) >= |p|
    ensures c in s[|p|..] ==> IndexOf(s, c) == |p| + IndexOf(s[|p|..], c)
    ensures c !in s[|p|..] ==> IndexOf(s, c) == |s|
  {
    if p == [] {
      assert s[|p|..] == s;
    } else {
      assert s[0] == p[0] && p[0] in p;
      IndexOfAbsent(p[1..], s[1..], c);
      assert s[1..][|p[1..]|..] == s[|p|..];
    }
  }

  /** The start destination: home when signed in, login otherwise. */
  function StartDestination(isAuthenticated: bool): (r: string)
    ensures r == HomeRoute <==> isAuthenticated
    ensures r == LoginRoute <==> !isAuthenticated
  {
    if isAuthenticated then HomeRoute else LoginRoute
  }

  /** The route of the back stack's top entry, or the start destination when there is none. */
  function CurrentRoute(topRoute: Option<string>, startDestination: string): (r: string)
    ensures topRoute.Some? ==> r == topRoute.value
    ensures topRoute.None? ==> r == startDestination
  {
    topRoute.GetOr(startDestination)
  }

  /** The routes that show the bottom navigation bar. */
  const BottomNavRoutes: seq<string> := [HomeRoute, ExploreRoute, LibraryRoute, SettingsRoute]

  /** `showBottomNav`: whether the route is one of the four top-level tabs. */
  function ShowBottomNav(route: string): (r: bool)
    ensures r <==> route in BottomNavRoutes
  {
    route == HomeRoute || route == ExploreRoute || route == LibraryRoute || route == SettingsRoute
  }

  /** Right after start-up the bar shows exactly when the user is signed in. */
  lemma BottomNavAtStart(isAuthenticated: bool)
    ensures ShowBottomNav(CurrentRoute(None, StartDestination(isAuthenticated))) <==> isAuthenticated
  {
  }

  /** Detail, reader, storage and login screens never show the bar. */
  lemma NoBottomNavOffTabs(mangaId: string, chapterId: string, mangaSlug: Option<string>)
    ensures !ShowBottomNav(DetailRoute(mangaId))
    ensures !ShowBottomNav(ReaderRoute(chapterId, mangaSlug))
    ensures !ShowBottomNav(StorageRoute) && !ShowBottomNav(LoginRoute)
  {
    var d := DetailRoute(mangaId);
    var r := ReaderRoute(chapterId, mangaSlug);
    assert |d| >= 7 && d[..7] == "detail/";
    assert |r| >= 7 && r[..7] == "reader/";
    assert d != HomeRoute && d != ExploreRoute && d != LibraryRoute && d != SettingsRoute by {
      assert d[6] == '/';
    }
    assert r != HomeRoute && r != ExploreRoute && r != LibraryRoute && r != SettingsRoute by {
      assert r[6] == '/';
    }
  }

  /** The chapter URL as a route argument: Base64 (no wrapping) of its UTF-8 bytes. */
  function EncodeChapterId(url: string): (r: string)
    ensures '?' !in r
    ensures |r| % 4 == 0
  {
    Base64.EncodeHasNoQuestionMark(Utf8.Encode(url));
    Base64.Encode(Utf8.Encode(url))
  }

  /**
   * The chapter id the reader screen receives: the missing argument reads as
   * "", a Base64 argument is decoded and read as UTF-8, and an argument the
   * decoder rejects is used as it is.
   */
  function DecodeChapterId(arg: Option<string>): (r: string)
    ensures arg.None? ==> r == ""
    ensures arg.Some? && Base64.Decode(arg.value).None? ==> r == arg.value
  {
    var encoded := arg.GetOr("");
    match Base64.Decode(encoded)
    case None => encoded
    case Some(bytes) => Utf8.Decode(bytes)
  }

  /**
   * The standard alphabet's '/' can appear in an encoded chapter URL, so the
   * argument can span more than one path segment of the reader route.
   */
  lemma EncodedIdMayContainSlash()
    ensures EncodeChapterId("ab?") == "YWI/"
    ensures '/' in EncodeChapterId("ab?")
  {
    var bytes := Utf8.Encode("ab?");
    assert bytes == [97, 98, 63];
    assert Base64.Sextets(bytes) == [24, 22, 8, 63];
    var e := Base64.Encode(bytes);
    assert e == Base64.Render([24, 22, 8, 63]);
    assert e[3] == '/';
  }

  /** Decoding an encoded chapter URL gives the URL back. */
  lemma ChapterIdRoundTrip(url: string)
    ensures DecodeChapterId(Some(EncodeChapterId(url))) == url
  {
    Base64.DecodeEncode(Utf8.Encode(url));
    Utf8.DecodeEncode(url);
  }

  /**
   * Opening a chapter from the detail, storage or reader screen: the route
   * carries the encoded URL and the slug, and the reader screen ends up with
   * the original URL and the same slug.
   */
  lemma OpenChapterRoundTrip(url: string, mangaSlug: Option<string>)
    ensures var route := ReaderRoute(EncodeChapterId(url), mangaSlug);
            && ParseReaderRoute(route) == Some((EncodeChapterId(url), mangaSlug))
            && DecodeChapterId(Some(ParseReaderRoute(route).value.0)) == url
  {
    ReaderRouteRoundTrip(EncodeChapterId(url), mangaSlug);
    ChapterIdRoundTrip(url);
  }
}
