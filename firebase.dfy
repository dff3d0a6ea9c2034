/**
 * Finding the Google sign-in web client id in `google-services.json`: the
 * first OAuth client of type 3 across the file's clients, read from the app's
 * assets or from one of three file paths, and kept once found.
 * JSON documents are trees; reading and parsing the text is not modelled.
 */
module Firebase {
  import opened Wrappers

  /** A JSON value as `org.json` holds it (objects keep the last value of a repeated key). */
  datatype Json =
    | JNull
    | JBool(b: bool)
    | JNum(n: int)
    | JStr(s: string)
    | JArr(items: seq<Json>)
    | JObj(fields: map<string, Json>)

  /** The text of a configuration file: a parsed document, or text that is not JSON. */
  datatype JsonText = Malformed | Document(root: Json)

  /** A configuration file that exists: readable, or failing when read. */
  datatype FileState = Readable(text: JsonText) | Unreadable

  /** How a search ended: with an id, without one, or with an exception. */
  datatype Search = Found(id: string) | NotFound | Threw

  /** The OAuth client type of a web client. */
  const WebClientType: int := 3

  /** The id used when none can be read. */
  const DefaultWebClientId: string := "418677381412-qaj4anmde4eeibigrjcmjjotajji6h3n.apps.googleusercontent.com"

  /** The file paths tried after the assets, in order. */
  const PossiblePaths: seq<string> :=
    ["app/google-services.json", "../app/google-services.json", "../../app/google-services.json"]

  function DecimalDigits(n: nat): string
  {
    if n < 10 then [('0' as int + n) as char]
    else DecimalDigits(n / 10) + [('0' as int + n % 10) as char]
  }

  /** `optInt(key, fallback)`: a number member, else the fallback. */
  function OptInt(fields: map<string, Json>, key: string, fallback: int): (r: int)
    ensures key !in fields ==> r == fallback
    ensures key in fields && fields[key].JNum? ==> r == fields[key].n
  {
    if key in fields && fields[key].JNum? then fields[key].n else fallback
  }

  /**
   * `optString(key, null)`: a string member as it is; `null`, booleans and
   * numbers as their JSON text; `None` when the key is missing.
   */
  function OptString(fields: map<string, Json>, key: string): (r: Option<string>)
    ensures key !in fields ==> r.None?
    ensures key in fields && fields[key].JStr? ==> r == Some(fields[key].s)
  {
    if key !in fields then None
    else match fields[key]
      case JStr(s) => Some(s)
      case JNull => Some("null")
      case JBool(b) => Some(if b then "true" else "false")
      case JNum(n) => Some(if n < 0 then "-" + DecimalDigits(-n) else DecimalDigits(n))
      case _ => None
  }

  /** `optJSONArray(key)`: an array member's items, else `None`. */
  function OptArray(fields: map<string, Json>, key: string): (r: Option<seq<Json>>)
    ensures r.Some? <==> key in fields && fields[key].JArr?
  {
    if key in fields && fields[key].JArr? then Some(fields[key].items) else None
  }

  /** An OAuth client entry that names a web client id. */
  predicate IsWebClient(o: Json)
  {
    o.JObj? && OptInt(o.fields, "client_type", -1) == WebClientType && OptString(o.fields, "client_id").Some?
  }

  /** The OAuth clients of a client entry; none when the member is missing or not an array. */
  function OauthClients(client: Json): seq<Json>
    requires client.JObj?
  {
    OptArray(client.fields, "oauth_client").GetOr([])
  }

  /**
   * The inner search: the id of the first web client; an entry that is not an
   * object makes `getJSONObject` throw.
   */
  function ScanOauth(os: seq<Json>): (r: Search)
    ensures r.Found? ==> exists j :: 0 <= j < |os| && IsWebClient(os[j])
                          && OptString(os[j].fields, "client_id") == Some(r.id)
                          && forall k :: 0 <= k < j ==> os[k].JObj? && !IsWebClient(os[k])
    ensures r.NotFound? <==> forall k :: 0 <= k < |os| ==> os[k].JObj? && !IsWebClient(os[k])
  {
    if os == [] then NotFound
    else if !os[0].JObj? then Threw
    else if OptInt(os[0].fields, "client_type", -1) == WebClientType && OptString(os[0].fields, "client_id").Some? then
      Found(OptString(os[0].fields, "client_id").value)
    else
      var r := ScanOauth(os[1..]);
      assert forall k :: 1 <= k < |os| ==> os[k] == os[1..][k - 1];
      r
  }

  /** The outer search, client after client. */
  function ScanClients(cs: seq<Json>): (r: Search)
    ensures r.Found? ==> exists i :: 0 <= i < |cs| && cs[i].JObj? && ScanOauth(OauthClients(cs[i])) == r
                          && forall k :: 0 <= k < i ==> cs[k].JObj? && ScanOauth(OauthClients(cs[k])).NotFound?
    ensures r.NotFound? <==> forall k :: 0 <= k < |cs| ==> cs[k].JObj? && ScanOauth(OauthClients(cs[k])).NotFound?
  {
    if cs == [] then NotFound
    else if !cs[0].JObj? then Threw
    else
      var first := ScanOauth(OauthClients(cs[0]));
      if !first.NotFound? then first
      else
        var r := ScanClients(cs[1..]);
        assert forall k :: 1 <= k < |cs| ==> cs[k] == cs[1..][k - 1];
        r
  }

  /** The `client` array of a document, when the document is an object that has one. */
  function ClientsOf(text: JsonText): Option<seq<Json>>
  {
    if text.Document? && text.root.JObj? then OptArray(text.root.fields, "client") else None
  }

  /**
   * `parseWebClientId`: the id the search finds; malformed text, a missing
   * `client` array or an entry that is not an object give `None`.
   */
  function WebClientIdIn(text: JsonText): (r: Option<string>)
    ensures ClientsOf(text).None? ==> r.None?
    ensures ClientsOf(text).Some? ==> (r.Some? <==> ScanClients(ClientsOf(text).value).Found?)
  {
    match ClientsOf(text)
    case None => None
    case Some(cs) => if ScanClients(cs).Found? then Some(ScanClients(cs).id) else None
  }

  /** `parseWebClientId`, with its nested loops and early returns. */
  method ParseWebClientId(text: JsonText) returns (r: Option<string>)
    ensures r == WebClientIdIn(text)
  {
    if text.Malformed? || !text.root.JObj? {
      return None;
    }
    var clientsValue := OptArray(text.root.fields, "client");
    if clientsValue.None? {
      return None;
    }
    var clients := clientsValue.value;
    var i := 0;
    while i < |clients|
      invariant 0 <= i <= |clients|
      invariant ScanClients(clients) == ScanClients(clients[i..])
    {
      var client := clients[i];
      if !client.JObj? {
        return None;
      }
      var oauthClients := OptArray(client.fields, "oauth_client");
      if oauthClients.Some? && |oauthClients.value| > 0 {
        var os := oauthClients.value;
        var j := 0;
        while j < |os|
          invariant 0 <= j <= |os|
          invariant ScanOauth(os) == ScanOauth(os[j..])
        {
          var oauthClient := os[j];
          if !oauthClient.JObj? {
            return None;
          }
          var clientType := OptInt(oauthClient.fields, "client_type", -1);
          if clientType == WebClientType {
            var clientId := OptString(oauthClient.fields, "client_id");
            if clientId.Some? {
              return clientId;
            }
          }
          assert os[j..][1..] == os[j + 1..];
          j := j + 1;
        }
      }
      assert clients[i..][1..] == clients[i + 1..];
      i := i + 1;
    }
    return None;
  }

  /** The file search moves past a path that does not exist or whose document names no web client. */
  predicate PassesOver(files: map<string, FileState>, path: string)
  {
    path !in files || (files[path].Readable? && WebClientIdIn(files[path].text).None?)
  }

  /**
   * The file search, path after path: the first existing path ends it, with
   * the id its document names or with a throw when it cannot be read; the
   * search goes on past paths that do not exist or name no web client.
   */
  function ScanFiles(paths: seq<string>, files: map<string, FileState>): (r: Search)
    ensures r.Found? ==> exists i :: 0 <= i < |paths| && paths[i] in files && files[paths[i]].Readable?
                          && WebClientIdIn(files[paths[i]].text) == Some(r.id)
                          && forall k :: 0 <= k < i ==> PassesOver(files, paths[k])
    ensures r.NotFound? <==> forall k :: 0 <= k < |paths| ==> PassesOver(files, paths[k])
  {
    if paths == [] then NotFound
    else if PassesOver(files, paths[0]) then
      var r := ScanFiles(paths[1..], files);
      assert forall k :: 1 <= k < |paths| ==> paths[k] == paths[1..][k - 1];
      r
    else if files[paths[0]].Unreadable? then Threw
    else Found(WebClientIdIn(files[paths[0]].text).value)
  }

  /** The search reaches path `i`: every earlier path is passed over. */
  predicate Reaches(paths: seq<string>, files: map<string, FileState>, i: int)
  {
    0 <= i < |paths| && forall k :: 0 <= k < i ==> PassesOver(files, paths[k])
  }

  /** A throw comes from an existing file that cannot be read, with every earlier path passed over. */
  lemma {:induction false} ScanFilesThrew(paths: seq<string>, files: map<string, FileState>)
    ensures ScanFiles(paths, files).Threw? ==>
              exists i :: Reaches(paths, files, i) && paths[i] in files && files[paths[i]].Unreadable?
  {
    if paths != [] && ScanFiles(paths, files).Threw? {
      if PassesOver(files, paths[0]) {
        ScanFilesThrew(paths[1..], files);
        var i :| Reaches(paths[1..], files, i) && paths[1..][i] in files && files[paths[1..][i]].Unreadable?;
        assert paths[i + 1] == paths[1..][i];
        assert forall k :: 1 <= k < i + 1 ==> paths[k] == paths[1..][k - 1];
        assert Reaches(paths, files, i + 1);
      } else {
        assert Reaches(paths, files, 0);
      }
    }
  }

  /**
   * What `getWebClientId` reads when nothing is cached: the assets' copy
   * (`None` when it cannot be opened), else the files; an unreadable file
   * ends the whole search with `None`.
   */
  function WebClientIdFrom(asset: Option<JsonText>, files: map<string, FileState>): (r: Option<string>)
    ensures asset.Some? && WebClientIdIn(asset.value).Some? ==> r == WebClientIdIn(asset.value)
    ensures !(asset.Some? && WebClientIdIn(asset.value).Some?) ==>
              (r.Some? <==> ScanFiles(PossiblePaths, files).Found?)
    ensures r.Some? && (asset.None? || WebClientIdIn(asset.value).None?) ==>
              exists i :: 0 <= i < |PossiblePaths| && PossiblePaths[i] in files && files[PossiblePaths[i]].Readable?
                          && WebClientIdIn(files[PossiblePaths[i]].text) == r
                          && forall k :: 0 <= k < i ==> PassesOver(files, PossiblePaths[k])
    ensures r.None? <==> (asset.None? || WebClientIdIn(asset.value).None?)
                         && !ScanFiles(PossiblePaths, files).Found?
  {
    if asset.Some? && WebClientIdIn(asset.value).Some? then WebClientIdIn(asset.value)
    else
      var s := ScanFiles(PossiblePaths, files);
      if s.Found? then Some(s.id) else None
  }

  /** An OAuth client without `client_type` reads as type -1 and never matches. */
  lemma MissingClientTypeNeverMatches(o: Json)
    requires o.JObj? && "client_type" !in o.fields
    ensures !IsWebClient(o)
  {
  }

  /** A client entry without an `oauth_client` array is passed over. */
  lemma ClientWithoutOauthSkipped(cs: seq<Json>)
    requires cs != [] && cs[0].JObj? && OptArray(cs[0].fields, "oauth_client").None?
    ensures ScanClients(cs) == ScanClients(cs[1..])
  {
  }

  /** The process-wide configuration reader and its cache. */
  class FirebaseConfig {
    var cachedWebClientId: Option<string>

    constructor()
      ensures cachedWebClientId.None?
    {
      cachedWebClientId := None;
    }

    /**
     * `getWebClientId`: a cached id is returned without reading anything;
     * otherwise the sources are searched and a found id is cached.
     */
    method GetWebClientId(asset: Option<JsonText>, files: map<string, FileState>) returns (r: Option<string>)
      modifies this
      ensures old(cachedWebClientId).Some? ==> r == old(cachedWebClientId) && cachedWebClientId == r
      ensures old(cachedWebClientId).None? ==> r == WebClientIdFrom(asset, files) && cachedWebClientId == r
    {
      if cachedWebClientId.Some? {
        return cachedWebClientId;
      }
      if asset.Some? {
        var webClientId := ParseWebClientId(asset.value);
        if webClientId.Some? {
          cachedWebClientId := webClientId;
          return webClientId;
        }
      }
      var i := 0;
      while i < |PossiblePaths|
        invariant 0 <= i <= |PossiblePaths|
        invariant ScanFiles(PossiblePaths, files) == ScanFiles(PossiblePaths[i..], files)
        invariant cachedWebClientId.None?
      {
        var path := PossiblePaths[i];
        assert PossiblePaths[i..][1..] == PossiblePaths[i + 1..];
        if path in files {
          match files[path]
          case Unreadable =>
            return None;
          case Readable(text) =>
            var webClientId := ParseWebClientId(text);
            if webClientId.Some? {
              cachedWebClientId := webClientId;
              return webClientId;
            }
        }
        i := i + 1;
      }
      return None;
    }

    /** `getDefaultWebClientId`: the id that can be read, else the built-in one. */
    method GetDefaultWebClientId(asset: Option<JsonText>, files: map<string, FileState>) returns (r: string)
      modifies this
      ensures old(cachedWebClientId).Some? ==> r == old(cachedWebClientId).value
      ensures old(cachedWebClientId).None? ==> r == WebClientIdFrom(asset, files).GetOr(DefaultWebClientId)
    {
      var webClientId := GetWebClientId(asset, files);
      if webClientId.Some? {
        return webClientId.value;
      }
      return DefaultWebClientId;
    }
  }
}
